# Big Trip: route-point list, helpers and presenters in Dafny

A model of the core of a browser trip planner. The planner keeps a list of *route points*:
travel events, each with an id, a type, a city, start and end timestamps, a price and a
favourite flag. The modelled parts are:

- **`RoutePointsModel`** (`points_model.dfy`, module `PointsModel`) owns the list of points and
  the offer and destination catalogues.
  - `init` loads the list and both catalogues together, or resets all three.
  - `addPoint`, `updatePoint` and `deletePoint` call the remote gateway, then edit the list,
    re-sort it by `date_from`, and notify subscribers.
  - It is a class whose fields the methods reassign. Each gateway call is given as the reply
    it settles with. The notifications and the gateway calls issued are kept as logs.
- **The pure helpers of `utils.js`** (`utils.dfy`, module `Utils`, with `text.dfy` for
  `String(n)`, `padStart` and `slice`, and `sorting.dfy` for the stable sort):
  - `calculateDuration` and `formatDateToCustomFormat`;
  - `isEscapeKey` (the key name is `"Escape"`);
  - the minute-granular time classes `isFuturePoint`, `isPresentPoint` and `isPastPoint`;
  - replacement by id (`updatePoint`);
  - the three orderings of `sortRoutePoints`.
- **`RoutePointPresenter`** (`point_presenter.dfy`) shows one point either as a read-only row or
  as an edit form. It has two modes, DEFAULT and EDITING.
  - The DOM is abstracted to flags: whether each view exists, whether it is attached, and
    whether the Escape listener is registered.
  - Every transition is a method. Its `ensures` ties the new state to a pure transition
    function, and the lemmas about those functions carry the properties.
- **`TripPresenter`** (`trip_presenter.dfy`, module `Trip`):
  - renders the filter and sort controls, then the empty-list message or the list;
  - builds one `RoutePointPresenter` per valid point, stored in a map keyed by id;
  - replaces points by id when told of a change;
  - sweeps every presenter back to DEFAULT when one of them opens its edit form.

Every comparator in the code has the form `(a, b) => key(a) - key(b)`. `Array.prototype.sort`
is stable (section 23.1.3.30 of ECMA-262, 2023 edition), so each sort is modelled as one
stable sort, ascending on an integer key. A descending order sorts on the negated key.
`StableArrangement` states what the standard asks of such a sort:

- the result is a permutation of the input;
- it is ordered by the key;
- elements with equal keys keep their relative order.

`Sorting.StableSortCharacterised` proves that `StableSort` is the only arrangement with those
properties.

### Behaviour of the code that the model keeps

- **The data model sorts on the wire field `date_from`.** The helpers and the trip presenter
  read `dateFrom`. A point therefore carries both: `wireDateFrom` and `dateFrom`.
- **`TripPresenter` builds each `RoutePointPresenter` with three of its seven arguments.**
  `#isNewPointFormOpen` is then undefined, and a click on the open-edit button throws before
  anything changes (`Trip.TripPresenter.OnOpenEditOf`).
- **`RoutePointPresenter` calls `onDataChange(action, updateType, point)`.**
  `TripPresenter.#onDataChange` reads its first argument as the point, so it receives the
  action tag. No point's id equals the tag's id, so the list stays as it is.
- **`init` of `RoutePointPresenter` does not reset the mode.** `PointPresenter.ReopenAfterInitInEditing`
  shows where that leads: the row stays in EDITING mode while its read-only view is shown.
- **The mode is set to EDITING only after the `onModeChange` sweep.** The sweep therefore
  leaves the opening presenter alone (`PointPresenter.SweepSkipsOpener`). Setting the mode
  first would close the form being opened (`PointPresenter.ModeFirstWouldUndo`).

### Where the code and the documented design differ

The model follows the code in each case:

- **Trip presenter.** The documented design has the trip presenter subscribe to the model,
  branch on the update kind, and handle sort changes and the creation form. The code of
  `trip-presenter.js` does none of these, and neither does the model.
- **Validity filter.**
  - The design: non-empty id, positive price, start and end present, non-empty type.
  - The code: `id`, `dateFrom`, `type` and `city` truthy (`Trip.IsRenderable`).
- **Time classes.**
  - The design: future when start > now, present when start ≤ now < end, past when end ≤ now.
  - The code compares at minute granularity, with strict comparisons on both sides of
    "present" (`Utils.TimeClasses`).

## Model

| member | source | states |
|---|---|---|
| Text.PadStart | src/utils.js:29 | `padStart` pads on the left to the width with the pad character, keeps the text as its suffix, and never truncates |
| Text.DigitsRoundTrip | src/utils.js:29 | `String(n)` for a non-negative integer reads back as `n` |
| Text.DigitsLength | src/utils.js:34 | `String(n)` has one digit below 10, two from 10 to 99, and at least three from 100 |
| Text.PaddedDigitsRoundTrip | src/utils.js:29 | `String(n).padStart(w, '0')` is all digits, at least `w` long, and still reads back as `n` |
| Sorting.StableSortIsStable | src/model/route-point-model.js:102-104 | the stable sort gives a permutation of its input, ordered by the comparator's key, with equal-key elements in their original relative order |
| Sorting.StableArrangementUnique | src/utils.js:59-71 | two lists ordered by the key that agree on the order within every run of equal keys are the same list, so a stable sort's result is unique |
| Sorting.StableSortCharacterised | src/utils.js:63-68 | a list is a stable arrangement of the input if and only if it is what `StableSort` returns |
| Sorting.SortedIsFixpoint | src/model/route-point-model.js:97 | sorting a list already in key order leaves it as it is |
| Sorting.StableSortIdempotent | src/model/route-point-model.js:15-18 | sorting twice gives the same list as sorting once, so repeated reads of `points` agree |
| Sorting.PrependedComesFirst | src/model/route-point-model.js:53-58 | an element put in front before the stable sort ends up ahead of every element with an equal key: everything before it has a strictly smaller key |
| Utils.CalculateDurationReadsBack | src/utils.js:21-36 | the duration text parses back into fields whose units add up to the duration in minutes. Below 60 minutes it is one unpadded minutes field; below 1440 it is hours (1-23) and minutes (below 60); from 1440 on it is days, hours below 24 and minutes below 60; every field in the last two shapes is zero-padded to at least two digits |
| Utils.LongDurationsKeepAllDayDigits | src/utils.js:30-34 | from 100 days on, the day field keeps all its digits (three or more): `padStart` never truncates |
| Utils.FormatDateFields | src/utils.js:38-47 | for a four-digit year the text is "DD/MM/YY HH:MM", 14 characters, with each field reading back as the day, the one-based month, the year's last two digits, the hours and the minutes |
| Utils.MinuteComparisons | src/utils.js:51-55 | dayjs `isBefore` and `isAfter` at minute granularity compare the minute numbers of the two timestamps |
| Utils.TimeClasses | src/utils.js:51-55 | a point is future iff now's minute is before its start minute, present iff now's minute is strictly between its start and end minutes, and past iff now's minute is after its end minute; a point starting in the current minute is neither future nor present |
| Utils.TimeClassesExclusive | src/utils.js:51-55 | for a point that does not end before it starts, at most one of future, present and past holds |
| Utils.UpdateById | src/utils.js:57 | the result has the input's length, and at each position holds the update where the ids match and the original point elsewhere |
| Utils.UpdateByIdProperties | src/utils.js:57 | replacement by id keeps the ids in order, is idempotent, and changes nothing when no point has the update's id |
| Utils.UpdateByIdIsSplice | src/utils.js:57 | when ids are unique, replacement by id is the splice of the update at the position of its id |
| Utils.SortRoutePoints | src/utils.js:59-72 | the result is a permutation of the input. DAY is a stable ascending sort on the start, TIME a stable descending sort on the duration, PRICE a stable descending sort on the price. An unknown sort type returns the copy in its original order |
| Utils.SortRoutePointsOrders | src/utils.js:63-68 | pairwise order: DAY non-decreasing start, TIME non-increasing duration, PRICE non-increasing price |
| PointsModel.FindIndex | src/model/route-point-model.js:64 | `findIndex` by id gives -1 exactly when no point has the id, and otherwise the first position holding it |
| PointsModel.AddedPointFacts | src/model/route-point-model.js:50-61 | after an add the list has one point more and the same points plus the new one. It is sorted by `date_from`, and the new point comes before every old point with the same `date_from` |
| PointsModel.UpdatedPointFacts | src/model/route-point-model.js:70-78 | after an update the list has the same length and the same points, with the one at the found index exchanged for the gateway's answer; it is sorted by `date_from` |
| PointsModel.DeletedPointFacts | src/model/route-point-model.js:90-97 | after a delete the list has one point fewer, exactly the one at the found index gone, and is sorted by `date_from`; if the list was already sorted, the re-sort moves nothing |
| PointsModel.RoutePointsModel.constructor | src/model/route-point-model.js:5-13 | a new model starts with an empty list and empty catalogues, and has sent nothing |
| PointsModel.RoutePointsModel.SortPointsByDate | src/model/route-point-model.js:102-104 | the list becomes its stable sort by `date_from`: sorted, with the same points |
| PointsModel.RoutePointsModel.Points | src/model/route-point-model.js:15-18 | the getter sorts the stored list in place and returns it: a sorted permutation of the stored points |
| PointsModel.RoutePointsModel.Init | src/model/route-point-model.js:28-48 | all three fetches are issued. If all three resolve, all three collections are replaced and INIT is notified once. Otherwise all three become empty and ERROR is notified once |
| PointsModel.RoutePointsModel.AddPoint | src/model/route-point-model.js:50-61 | the add request is issued. On rejection it throws, with the list and the notifications unchanged. On success the list is the stable sort of the new point prepended to the old list, and one notification carries the caller's update type and the new point |
| PointsModel.RoutePointsModel.UpdatePoint | src/model/route-point-model.js:63-81 | a missing id throws "not found" with nothing changed and no request issued. A rejection throws after the request, with the list and notifications unchanged. On success the point at the first matching index is replaced by the answer and the list re-sorted, with one notification carrying the answer |
| PointsModel.RoutePointsModel.DeletePoint | src/model/route-point-model.js:83-100 | a missing id throws "not found" with nothing changed and no request issued. A rejection throws after the request, with nothing else changed. On success the point at the first matching index is removed, the list is re-sorted and one shorter, and one notification carries the caller's point |
| PointPresenter.Destroyed | src/presenter/route-point-presenter.js:35-44 | after `destroy` neither view exists nor is attached; the mode and the listener are untouched |
| PointPresenter.DestroyIdempotent | src/presenter/route-point-presenter.js:35-44 | a second `destroy` changes nothing |
| PointPresenter.Rendered | src/presenter/route-point-presenter.js:46-57 | after rendering, only a fresh read-only view exists and it is attached, with no edit form; the mode is the one before |
| PointPresenter.SwappedToPoint | src/presenter/route-point-presenter.js:111-118 | if the edit form is not in the DOM nothing changes; otherwise the read-only view is back, the form is detached and the mode is DEFAULT |
| PointPresenter.Reset | src/presenter/route-point-presenter.js:120-124 | in DEFAULT nothing changes. In EDITING with the form detached nothing changes, the mode included. Otherwise the view swaps back. Afterwards no edit form is attached |
| PointPresenter.ResetIdempotent | src/presenter/route-point-presenter.js:120-124 | resetting twice is resetting once, so the sweep's visiting order and repetitions do not matter |
| PointPresenter.SweptHaveNoEditForm | src/presenter/route-point-presenter.js:120-124 | from any consistent state, a reset leaves no edit form attached and the state consistent |
| PointPresenter.SweepSkipsOpener | src/presenter/route-point-presenter.js:106-108 | opening from DEFAULT ends the same whether or not the sweep also visits the opener: EDITING, with the edit form in the DOM and the read-only view detached |
| PointPresenter.ModeFirstWouldUndo | src/presenter/route-point-presenter.js:106-108 | had the mode been set to EDITING before the sweep, the sweep would close the form just opened and return to DEFAULT |
| PointPresenter.ReopenAfterInitInEditing | src/presenter/route-point-presenter.js:30-33 | a presenter re-initialised while EDITING and then opened during a sweep ends in EDITING with its read-only view shown and no edit form attached |
| PointPresenter.OpenedWellFormed | src/presenter/route-point-presenter.js:91-109 | opening keeps the presenter state consistent: attached views exist, and the two views are never attached together |
| PointPresenter.ToggleFavorite | src/presenter/route-point-presenter.js:60-64 | the favourite flag is flipped and every other field of the point is kept |
| PointPresenter.ToggleFavoriteTwice | src/presenter/route-point-presenter.js:62 | flipping the favourite flag twice gives the point back |
| PointPresenter.RoutePointPresenter.constructor | src/presenter/route-point-presenter.js:7-28 | a new presenter starts in DEFAULT with no views, no point and no listener, and remembers whether it was given the new-point form hooks |
| PointPresenter.RoutePointPresenter.Init | src/presenter/route-point-presenter.js:30-33 | the point is stored and the state becomes the rendered state of the old one, mode unchanged |
| PointPresenter.RoutePointPresenter.Destroy | src/presenter/route-point-presenter.js:35-44 | the state becomes the destroyed state of the old one |
| PointPresenter.RoutePointPresenter.OnFavoriteClick | src/presenter/route-point-presenter.js:60-64 | the stored point's favourite flag is flipped, and `onDataChange` is called with UPDATE_POINT, PATCH and the flipped point |
| PointPresenter.RoutePointPresenter.ReplaceEditPointToPoint | src/presenter/route-point-presenter.js:111-118 | the state becomes the swapped-back state of the old one |
| PointPresenter.RoutePointPresenter.ResetPointMode | src/presenter/route-point-presenter.js:120-124 | the state becomes the reset state of the old one |
| PointPresenter.RoutePointPresenter.OnEscKeyDown | src/presenter/route-point-presenter.js:66-71 | for the Escape key, the views swap back and the listener is removed; for any other key nothing changes |
| PointPresenter.RoutePointPresenter.OnCloseEditButtonClick | src/presenter/route-point-presenter.js:82-85 | the views swap back if the form is attached, and the listener is removed in any case |
| PointPresenter.RoutePointPresenter.ReplacePointToEditPoint | src/presenter/route-point-presenter.js:91-109 | nothing happens unless the read-only view is attached. Otherwise the form takes its place and every other swept presenter is reset; the mode becomes EDITING only after the sweep |
| PointPresenter.RoutePointPresenter.OnOpenEditButtonClick | src/presenter/route-point-presenter.js:73-80 | without the hooks it throws with nothing changed. Otherwise it reports whether the new-point form was closed, opens the edit form and registers the Escape listener. From DEFAULT the opener ends EDITING with its form shown while no other swept presenter has a form attached |
| PointPresenter.ResetAll | src/presenter/trip-presenter.js:65-67 | every presenter of the set is reset exactly once, and no point changes |
| Trip.Registry | src/presenter/trip-presenter.js:69-78 | every entry of the presenter map is keyed by its own point's id, and holds a renderable point of the list |
| Trip.RegistryKeys | src/presenter/trip-presenter.js:54-58 | an id has a presenter if and only if some renderable point carries it |
| Trip.RegistryLastWins | src/presenter/trip-presenter.js:76-77 | the presenter for an id shows the last renderable point with that id: a later point overwrites an earlier one |
| Trip.NothingRenderableRegistersNothing | src/presenter/trip-presenter.js:54-58 | a list in which no point is renderable registers no presenter |
| Trip.TripPresenter.constructor | src/presenter/trip-presenter.js:14-23 | a new trip presenter holds the given points, no presenters and nothing rendered |
| Trip.TripPresenter.Init | src/presenter/trip-presenter.js:25-35 | the filter and sort controls are always rendered. An empty list adds the empty message and no presenters. A non-empty list adds the list container and a new presenter for each registered point, in DEFAULT with its read-only view shown, and no empty message |
| Trip.TripPresenter.RenderRoutePointsList | src/presenter/trip-presenter.js:51-59 | the list container, then the presenters of the registry of the list |
| Trip.TripPresenter.RenderRoutePoint | src/presenter/trip-presenter.js:69-78 | a new presenter showing the point is stored under its id; every other entry is kept |
| Trip.TripPresenter.OnDataChange | src/presenter/trip-presenter.js:61-63 | a point replaces the stored points by id; an action tag leaves them unchanged. The length and the ids in order are kept |
| Trip.TripPresenter.OnModeChange | src/presenter/trip-presenter.js:65-67 | every registered presenter is reset |
| Trip.TripPresenter.OnOpenEditOf | src/presenter/trip-presenter.js:69-74 | presenters built with three arguments throw on the open-edit click and nothing changes |

## Left out

- The DOM and the view classes (`RoutePointView`, `CreateEditEventView`, `FilterView`,
  `SortView`, `ListMessageView`, `EventList`) are abstracted. `render`, `replace`,
  `remove()` and `parentElement` become flags for whether a view exists and is attached.
  `document.addEventListener` and `removeEventListener` for the Escape key become one flag.
- The trip presenter's rendering is kept as a log of components, in order. The filter and sort
  generators and the message texts are not modelled.
- `src/view/event-list-view.js` is a static template with no logic.
- Asynchrony is not modelled.
  - Each awaited gateway call is given as the reply it settles with.
  - `init` is one atomic step, and its three fetches are logged in a fixed order.
  - Interleaving of user events with pending calls is not modelled.
  - The promise returned by the favourite handler is not modelled.
- The `Observable` base class is not part of this model. `_notify` is an entry appended to
  the notification log, and no subscriber runs.
- `formatDate`, `formatTime` and `formatDatetime` depend on the locale and time zone, so they
  are not modelled. The `Date` getters and the `dayjs()` clock become integer parameters.
- `new Date(string)` parsing in the comparators is not modelled: timestamps are integer
  milliseconds.
- The `offers` and `destinations` getters of `RoutePointsModel` read the `offers` and
  `destinations` fields directly; the model has no separate member for them.
- Utils.CalculateDuration: only a non-negative whole number of minutes is modelled. For a
  negative or fractional duration the code returns text such as "1.5M"; that is not modelled.
- Utils.FormatDateFields: the field-by-field read-back is stated for four-digit years only.
  `FormatDateToCustomFormat` itself takes any year.
- Trip.TripPresenter.constructor: the code initialises `#routePoints` from
  `getRoutePoints()`, which `RoutePointsModel` does not define. The model takes the initial
  list as a parameter instead of modelling the resulting TypeError.
- Trip.TripPresenter.OnDataChange: ids are modelled as strings, so a point without an id
  (`undefined`) cannot be represented. In the code, such a point would match the action tag's
  missing id and be replaced.
- Trip.IsRenderable: `dateFrom` is an integer timestamp; only 0 is falsy. A missing or invalid
  date (`NaN`) cannot be represented.
- PointPresenter.RoutePointPresenter.OnFavoriteClick: the point is a value, not a shared
  object, so the flip is seen only in the presenter's own point. In the code it also changes
  the same object wherever else it is referenced.
- PointPresenter.ResetAll: JavaScript `Map` iteration follows insertion order; the sweep
  here visits a set in any order. Each reset touches only its own presenter, and a reset is
  idempotent, so the result is the same.
- The constructor arguments `eventsListContainer`, `destinations` and `offers` of
  `RoutePointPresenter` are not modelled. Neither is the `onDataChange` callback passed on to
  the edit form; both only reach the views.
