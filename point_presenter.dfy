/** `RoutePointPresenter`: one point shown either as a read-only row or as an edit form.
    The DOM is abstracted to two flags per view: whether the presenter holds the view object
    (`#point`, `#editPoint` not null) and whether the view's element sits in a parent
    (`element.parentElement`); the Escape-key listener on the document is one more flag. */
module PointPresenter {
  import opened Domain
  import opened Utils

  datatype Mode = Default | Editing

  /** The observable state of one presenter. */
  datatype PresenterState = PresenterState(
    mode: Mode,
    pointHeld: bool,
    pointAttached: bool,
    editHeld: bool,
    editAttached: bool,
    escListening: bool)

  /** What holds between the operations: an attached view is held; the edit form exists only
      beside a read-only view; the two are never attached at once; and an attached edit form
      means the presenter is editing. */
  predicate WellFormed(s: PresenterState)
  {
    && (s.pointAttached ==> s.pointHeld)
    && (s.editAttached ==> s.editHeld)
    && (s.editHeld ==> s.pointHeld)
    && !(s.pointAttached && s.editAttached)
    && (s.editAttached ==> s.mode == Editing)
  }

  /** `#isElementInDOM` of the read-only view and of the edit form. */
  predicate PointInDom(s: PresenterState)
  {
    s.pointHeld && s.pointAttached
  }

  predicate EditInDom(s: PresenterState)
  {
    s.editHeld && s.editAttached
  }

  /** `destroy`: each held view is removed from the DOM and dropped. */
  function Destroyed(s: PresenterState): (r: PresenterState)
    ensures WellFormed(s) ==> WellFormed(r)
    ensures WellFormed(s) ==> !r.pointHeld && !r.pointAttached && !r.editHeld && !r.editAttached
    ensures r.mode == s.mode && r.escListening == s.escListening
  {
    var s1 := if s.pointHeld then s.(pointHeld := false, pointAttached := false) else s;
    if s1.editHeld then s1.(editHeld := false, editAttached := false) else s1
  }

  /** `init` (through `#renderRoutePoint`): destroy, then a fresh read-only view is rendered. */
  function Rendered(s: PresenterState): (r: PresenterState)
    requires WellFormed(s)
    ensures WellFormed(r)
    ensures PointInDom(r) && !r.editHeld && !r.editAttached
    ensures r.mode == s.mode && r.escListening == s.escListening
  {
    Destroyed(s).(pointHeld := true, pointAttached := true)
  }

  /** `#replaceEditPointToPoint`: only when the edit form is in the DOM, it is swapped for the
      read-only view and the mode becomes DEFAULT. */
  function SwappedToPoint(s: PresenterState): (r: PresenterState)
    ensures !EditInDom(s) ==> r == s
    ensures WellFormed(s) ==> WellFormed(r) && !r.editAttached
    ensures EditInDom(s) ==> r.mode == Default && r.pointAttached
  {
    if EditInDom(s) then s.(pointAttached := true, editAttached := false, mode := Default) else s
  }

  /** `resetPointMode`: nothing in DEFAULT; otherwise back to the read-only view if the edit
      form is in the DOM. */
  function Reset(s: PresenterState): (r: PresenterState)
    ensures s.mode == Default ==> r == s
    ensures s.mode == Editing && !EditInDom(s) ==> r == s
    ensures WellFormed(s) ==> WellFormed(r) && !r.editAttached
    ensures r.escListening == s.escListening && r.pointHeld == s.pointHeld && r.editHeld == s.editHeld
  {
    if s.mode != Default then SwappedToPoint(s) else s
  }

  /** The swap at the start of `#replacePointToEditPoint`: a new edit form takes the place of
      the read-only view. */
  function SwappedToEdit(s: PresenterState): PresenterState
  {
    s.(editHeld := true, editAttached := true, pointAttached := false)
  }

  /** `#replacePointToEditPoint` as this presenter sees it. Only when the read-only view is in
      the DOM: the swap, then `onModeChange` (the sweep, which resets this presenter too when
      it is among the swept), and only then the mode becomes EDITING. */
  function OpenedState(s: PresenterState, swept: bool): PresenterState
  {
    if !PointInDom(s) then s
    else
      var swapped := SwappedToEdit(s);
      (if swept then Reset(swapped) else swapped).(mode := Editing)
  }

  /** Because the sweep runs while the mode is still DEFAULT, it leaves the opening presenter
      alone: being swept or not makes no difference, and the edit form ends up in the DOM. */
  lemma SweepSkipsOpener(s: PresenterState)
    requires WellFormed(s) && s.mode == Default && PointInDom(s)
    ensures OpenedState(s, true) == OpenedState(s, false)
    ensures var r := OpenedState(s, true);
            WellFormed(r) && r.mode == Editing && EditInDom(r) && !r.pointAttached
  {
  }

  /** Had the mode been set to EDITING before the sweep, the sweep would have closed the form
      being opened. */
  lemma ModeFirstWouldUndo(s: PresenterState)
    requires WellFormed(s) && PointInDom(s)
    ensures !Reset(SwappedToEdit(s).(mode := Editing)).editAttached
    ensures Reset(SwappedToEdit(s).(mode := Editing)).mode == Default
  {
  }

  /** `init` keeps the mode, so a presenter re-initialised while EDITING shows its read-only
      view in EDITING mode; opening it again while swept puts the edit form up and the sweep
      takes it down at once, leaving the read-only view in EDITING mode. */
  lemma ReopenAfterInitInEditing(s: PresenterState)
    requires WellFormed(s) && s.mode == Editing
    ensures var r := OpenedState(Rendered(s), true);
            r.mode == Editing && PointInDom(r) && !r.editAttached
  {
  }

  /** Whatever state the opening starts from, no presenter state with an edit form in the DOM
      survives a sweep. */
  lemma SweptHaveNoEditForm(s: PresenterState)
    requires WellFormed(s)
    ensures !Reset(s).editAttached && WellFormed(Reset(s))
  {
  }

  /** Resetting twice is resetting once, so the order and the number of visits in a sweep do
      not matter. */
  lemma ResetIdempotent(s: PresenterState)
    ensures Reset(Reset(s)) == Reset(s)
  {
  }

  lemma OpenedWellFormed(s: PresenterState, swept: bool)
    requires WellFormed(s)
    ensures WellFormed(OpenedState(s, swept))
  {
  }

  /** `destroy` a second time changes nothing. */
  lemma DestroyIdempotent(s: PresenterState)
    ensures Destroyed(Destroyed(s)) == Destroyed(s)
  {
  }

  /** The favorite toggle: `is_favorite` flipped, every other field as it was. */
  function ToggleFavorite(p: Point): (r: Point)
    ensures r.isFavorite == !p.isFavorite
    ensures r.(isFavorite := p.isFavorite) == p
  {
    p.(isFavorite := !p.isFavorite)
  }

  /** Toggling twice gives the point back. */
  lemma ToggleFavoriteTwice(p: Point)
    ensures ToggleFavorite(ToggleFavorite(p)) == p
  {
  }

  /** The call `onDataChange(action, updateType, point)`. */
  datatype DataChange = DataChange(action: UserAction, updateType: UpdateType, point: Point)

  /** How a click on the open-edit button ends: by throwing (the new-point hooks were not
      supplied, so `this.#isNewPointFormOpen()` is a call of undefined), or normally, saying
      whether the new-point form was closed first. */
  datatype OpenResult = Threw | Opened(closedNewPointForm: bool)

  class RoutePointPresenter {
    /** Whether the constructor was given `isNewPointFormOpen` and `closeNewPointForm`. */
    const hasNewPointFormHooks: bool
    var routePoint: Option<Point>
    var mode: Mode
    var pointHeld: bool
    var pointAttached: bool
    var editHeld: bool
    var editAttached: bool
    var escListening: bool

    function State(): PresenterState
      reads this
    {
      PresenterState(mode, pointHeld, pointAttached, editHeld, editAttached, escListening)
    }

    predicate Valid()
      reads this
    {
      WellFormed(State()) && (pointHeld ==> routePoint.Some?)
    }

    /** The views can be swapped back: an edit form never exists without a read-only view. */
    predicate Swappable()
      reads this
    {
      editHeld ==> pointHeld
    }

    constructor (hasNewPointFormHooks: bool)
      ensures this.hasNewPointFormHooks == hasNewPointFormHooks
      ensures Valid() && routePoint == None
      ensures State() == PresenterState(Default, false, false, false, false, false)
    {
      this.hasNewPointFormHooks := hasNewPointFormHooks;
      routePoint := None;
      mode := Default;
      pointHeld, pointAttached, editHeld, editAttached := false, false, false, false;
      escListening := false;
    }

    method Destroy()
      modifies this`pointHeld, this`pointAttached, this`editHeld, this`editAttached
      ensures State() == Destroyed(old(State()))
    {
      if pointHeld {
        pointAttached := false;
        pointHeld := false;
      }
      if editHeld {
        editAttached := false;
        editHeld := false;
      }
    }

    method Init(p: Point)
      requires Valid()
      modifies this
      ensures Valid() && routePoint == Some(p)
      ensures State() == Rendered(old(State()))
    {
      routePoint := Some(p);
      Destroy();
      pointHeld := true;
      pointAttached := true;
    }

    /** `#onFavoriteClick` on the presenter's own point. */
    method OnFavoriteClick() returns (call: DataChange)
      requires routePoint.Some?
      modifies this`routePoint
      ensures routePoint == Some(ToggleFavorite(old(routePoint).value))
      ensures call == DataChange(UpdatePoint, Patch, routePoint.value)
    {
      var p := ToggleFavorite(routePoint.value);
      routePoint := Some(p);
      call := DataChange(UpdatePoint, Patch, p);
    }

    method ReplaceEditPointToPoint()
      requires Swappable()
      modifies this`pointAttached, this`editAttached, this`mode
      ensures State() == SwappedToPoint(old(State()))
    {
      if !(editHeld && editAttached) {
        return;
      }
      pointAttached, editAttached := true, false;
      mode := Default;
    }

    method ResetPointMode()
      requires Swappable()
      modifies this`pointAttached, this`editAttached, this`mode
      ensures State() == Reset(old(State()))
    {
      if mode != Default {
        ReplaceEditPointToPoint();
      }
    }

    /** `#onEscKeyDown`. */
    method OnEscKeyDown(key: string)
      requires Valid()
      modifies this`pointAttached, this`editAttached, this`mode, this`escListening
      ensures Valid()
      ensures IsEscapeKey(key) ==> State() == SwappedToPoint(old(State())).(escListening := false)
      ensures !IsEscapeKey(key) ==> State() == old(State())
    {
      if IsEscapeKey(key) {
        ReplaceEditPointToPoint();
        escListening := false;
      }
    }

    /** `#onCloseEditButtonClick`. */
    method OnCloseEditButtonClick()
      requires Valid()
      modifies this`pointAttached, this`editAttached, this`mode, this`escListening
      ensures Valid()
      ensures State() == SwappedToPoint(old(State())).(escListening := false)
    {
      ReplaceEditPointToPoint();
      escListening := false;
    }

    /** `#replacePointToEditPoint`; `swept` is the set of presenters whose `resetPointMode` the
        `onModeChange` callback calls. */
    method ReplacePointToEditPoint(swept: set<RoutePointPresenter>)
      requires Valid() && forall q :: q in swept ==> q.Valid()
      modifies this, swept
      ensures routePoint == old(routePoint) && escListening == old(escListening)
      ensures State() == OpenedState(old(State()), this in swept)
      ensures forall q :: q in swept && q != this ==>
                q.State() == (if PointInDom(old(State())) then Reset(old(q.State())) else old(q.State()))
      ensures forall q :: q in swept ==> q.routePoint == old(q.routePoint)
    {
      if !(pointHeld && pointAttached) {
        return;
      }
      editHeld, editAttached, pointAttached := true, true, false;
      ResetAll(swept);
      mode := Editing;
    }

    /** `#onOpenEditButtonClick`: close the new-point form if it is open, open the edit form,
        listen for Escape. `newPointFormOpen` is what `isNewPointFormOpen()` answers. */
    method OnOpenEditButtonClick(newPointFormOpen: bool, swept: set<RoutePointPresenter>)
      returns (result: OpenResult)
      requires Valid() && forall q :: q in swept ==> q.Valid()
      modifies this, swept
      ensures routePoint == old(routePoint)
      ensures forall q :: q in swept ==> q.routePoint == old(q.routePoint)
      ensures !hasNewPointFormHooks ==>
                && result == Threw
                && State() == old(State())
                && forall q :: q in swept ==> q.State() == old(q.State())
      ensures hasNewPointFormHooks ==>
                && result == Opened(newPointFormOpen)
                && State() == OpenedState(old(State()), this in swept).(escListening := true)
                && forall q :: q in swept && q != this ==>
                     q.State() == (if PointInDom(old(State())) then Reset(old(q.State())) else old(q.State()))
      ensures Valid() && forall q :: q in swept ==> q.Valid()
      ensures hasNewPointFormHooks && old(mode) == Default && PointInDom(old(State())) ==>
                && mode == Editing && EditInDom(State())
                && forall q :: q in swept && q != this ==> !q.editAttached
    {
      if !hasNewPointFormHooks {
        return Threw;
      }
      var closed := newPointFormOpen;
      ghost var before := State();
      ReplacePointToEditPoint(swept);
      OpenedWellFormed(before, this in swept);
      escListening := true;
      if before.mode == Default && PointInDom(before) {
        SweepSkipsOpener(before);
      }
      result := Opened(closed);
    }
  }

  /** The mutual-exclusion sweep: `resetPointMode` on every presenter of the set, once each. */
  method ResetAll(presenters: set<RoutePointPresenter>)
    requires forall q :: q in presenters ==> q.Swappable()
    modifies presenters
    ensures forall q :: q in presenters ==> q.State() == Reset(old(q.State())) && q.routePoint == old(q.routePoint)
  {
    var rest := presenters;
    while rest != {}
      invariant rest <= presenters
      invariant forall q :: q in presenters && q !in rest ==>
                  q.State() == Reset(old(q.State())) && q.routePoint == old(q.routePoint)
      invariant forall q :: q in rest ==> q.State() == old(q.State()) && q.routePoint == old(q.routePoint)
      invariant forall q :: q in presenters ==> q.Swappable()
      decreases rest
    {
      var q :| q in rest;
      q.ResetPointMode();
      rest := rest - {q};
    }
  }
}
