/** `TripPresenter`: renders the filter and sort controls, then either the empty-list message or
    the list of points, with one `RoutePointPresenter` per valid point kept in a map keyed by
    the point's id. Rendering is recorded as a log of the components put on the page. */
module Trip {
  import opened Domain
  import opened Utils
  import opened PointPresenter

  datatype Component = Filters | SortControls | EmptyMessage | ListContainer

  /** The first argument `#onDataChange` receives: a point, or (as `RoutePointPresenter` calls
      it) the action tag that comes first in its argument list. */
  datatype CallbackArg = PointArg(point: Point) | ActionArg(action: UserAction)

  /** The validity filter of `#renderRoutePointsList`: `id`, `dateFrom`, `type` and `city` are
      all truthy (a timestamp of 0 is falsy). */
  predicate IsRenderable(p: Point)
  {
    p.id != "" && p.dateFrom != 0 && p.kind != "" && p.city != ""
  }

  /** The presenter map as `forEach` with `Map.set` fills it: each renderable point in list
      order, a later point overwriting an earlier one with the same id. */
  function Registry(ps: seq<Point>): (m: map<string, Point>)
    ensures forall id :: id in m ==> m[id].id == id && IsRenderable(m[id]) && m[id] in ps
  {
    if ps == [] then map[]
    else
      var m := Registry(ps[..|ps| - 1]);
      var p := ps[|ps| - 1];
      if IsRenderable(p) then m[p.id := p] else m
  }

  /** The map has a key exactly for the ids of the renderable points. */
  lemma {:induction false} RegistryKeys(ps: seq<Point>, id: string)
    ensures id in Registry(ps) <==> exists i :: 0 <= i < |ps| && IsRenderable(ps[i]) && ps[i].id == id
  {
    if ps != [] {
      var init := ps[..|ps| - 1];
      RegistryKeys(init, id);
      if exists i :: 0 <= i < |init| && IsRenderable(init[i]) && init[i].id == id {
        var i :| 0 <= i < |init| && IsRenderable(init[i]) && init[i].id == id;
        assert ps[i] == init[i];
      }
      if exists i :: 0 <= i < |ps| && IsRenderable(ps[i]) && ps[i].id == id {
        var i :| 0 <= i < |ps| && IsRenderable(ps[i]) && ps[i].id == id;
        if i < |init| {
          assert init[i] == ps[i];
        }
      }
    }
  }

  /** The entry for an id is the last renderable point carrying it. */
  lemma {:induction false} RegistryLastWins(ps: seq<Point>, i: int)
    requires 0 <= i < |ps| && IsRenderable(ps[i])
    requires forall j :: i < j < |ps| && IsRenderable(ps[j]) ==> ps[j].id != ps[i].id
    ensures ps[i].id in Registry(ps) && Registry(ps)[ps[i].id] == ps[i]
  {
    if i < |ps| - 1 {
      var init := ps[..|ps| - 1];
      assert init[i] == ps[i];
      forall j | i < j < |init| && IsRenderable(init[j]) ensures init[j].id != init[i].id {
        assert init[j] == ps[j];
      }
      RegistryLastWins(init, i);
    }
  }

  /** A list of points none of which is renderable registers no presenter. */
  lemma NothingRenderableRegistersNothing(ps: seq<Point>)
    requires forall i :: 0 <= i < |ps| ==> !IsRenderable(ps[i])
    ensures Registry(ps) == map[]
  {
    forall id ensures id !in Registry(ps) {
      RegistryKeys(ps, id);
    }
  }

  lemma RegistryStep(ps: seq<Point>, i: int)
    requires 0 <= i < |ps|
    ensures Registry(ps[..i + 1]) ==
              if IsRenderable(ps[i]) then Registry(ps[..i])[ps[i].id := ps[i]] else Registry(ps[..i])
  {
    assert ps[..i + 1][..i] == ps[..i];
  }

  /** What a presenter looks like right after `init` on a fresh instance: DEFAULT, the read-only
      view in the DOM, no edit form, no Escape listener. */
  const Shown := PresenterState(Default, true, true, false, false, false)

  class TripPresenter {
    var routePoints: seq<Point>
    var presenters: map<string, RoutePointPresenter>
    var rendered: seq<Component>

    /** Every registered presenter is in a consistent state and, built with three arguments
        only, lacks the new-point form hooks. */
    predicate Valid()
      reads this, presenters.Values
    {
      forall q :: q in presenters.Values ==> q.Valid() && !q.hasNewPointFormHooks
    }

    constructor (initialPoints: seq<Point>)
      ensures Valid()
      ensures routePoints == initialPoints && presenters == map[] && rendered == []
    {
      routePoints := initialPoints;
      presenters := map[];
      rendered := [];
    }

    /** `init`: the filter and sort controls always; then the empty message for an empty list,
        or the list with a presenter for each registered point. */
    method Init()
      requires Valid()
      modifies this`rendered, this`presenters
      ensures Valid()
      ensures |routePoints| == 0 ==>
                rendered == old(rendered) + [Filters, SortControls, EmptyMessage] && presenters == old(presenters)
      ensures |routePoints| > 0 ==>
                && rendered == old(rendered) + [Filters, SortControls, ListContainer]
                && Registered(old(presenters), routePoints)
                && forall id :: id in Registry(routePoints) ==> fresh(presenters[id])
    {
      rendered := rendered + [Filters, SortControls];
      if |routePoints| == 0 {
        rendered := rendered + [EmptyMessage];
        return;
      }
      RenderRoutePointsList(routePoints);
    }

    /** After rendering the list `ps` over the map `before`: a key for each earlier key and each
        registered id; the earlier presenter where no point was registered; a new presenter
        showing the registered point everywhere else. */
    ghost predicate Registered(before: map<string, RoutePointPresenter>, ps: seq<Point>)
      reads this, presenters.Values
    {
      && presenters.Keys == before.Keys + Registry(ps).Keys
      && (forall id :: id in presenters && id !in Registry(ps) ==> presenters[id] == before[id])
      && (forall id :: id in Registry(ps) ==>
            && presenters[id].routePoint == Some(Registry(ps)[id])
            && presenters[id].State() == Shown)
    }

    /** `#renderRoutePointsList`: the list container, then a presenter for each renderable
        point, in order. */
    method RenderRoutePointsList(ps: seq<Point>)
      requires Valid()
      modifies this`rendered, this`presenters
      ensures Valid()
      ensures rendered == old(rendered) + [ListContainer]
      ensures Registered(old(presenters), ps)
      ensures forall id :: id in Registry(ps) ==> fresh(presenters[id])
    {
      rendered := rendered + [ListContainer];
      var i := 0;
      while i < |ps|
        invariant 0 <= i <= |ps|
        invariant rendered == old(rendered) + [ListContainer]
        invariant Valid()
        invariant Registered(old(presenters), ps[..i])
        invariant forall id :: id in Registry(ps[..i]) ==> fresh(presenters[id])
      {
        RegistryStep(ps, i);
        if IsRenderable(ps[i]) {
          ghost var m := presenters;
          RenderRoutePoint(ps[i]);
          forall id | id in Registry(ps[..i + 1])
            ensures presenters[id].routePoint == Some(Registry(ps[..i + 1])[id])
            ensures presenters[id].State() == Shown
            ensures fresh(presenters[id])
          {
            if id != ps[i].id {
              assert presenters[id] == m[id];
            }
          }
        }
        i := i + 1;
      }
      assert ps[..i] == ps;
    }

    /** `#renderRoutePoint`: a new presenter, built without the new-point form hooks, initialised
        with `p` and stored under `p.id`, replacing any presenter stored there. */
    method RenderRoutePoint(p: Point)
      requires Valid()
      modifies this`presenters
      ensures Valid()
      ensures p.id in presenters && presenters == old(presenters)[p.id := presenters[p.id]]
      ensures fresh(presenters[p.id])
      ensures presenters[p.id].routePoint == Some(p) && presenters[p.id].State() == Shown
    {
      var q := new RoutePointPresenter(false);
      q.Init(p);
      presenters := presenters[p.id := q];
    }

    /** `#onDataChange`: a point replaces, by id, the stored points it matches. An action tag
        has no id that any point carries, so the stored list stays as it is. */
    method OnDataChange(arg: CallbackArg)
      modifies this`routePoints
      ensures arg.PointArg? ==> routePoints == UpdateById(old(routePoints), arg.point)
      ensures arg.ActionArg? ==> routePoints == old(routePoints)
      ensures |routePoints| == |old(routePoints)| && Ids(routePoints) == Ids(old(routePoints))
    {
      if arg.PointArg? {
        UpdateByIdProperties(routePoints, arg.point);
        routePoints := UpdateById(routePoints, arg.point);
      }
    }

    /** `#onModeChange`: `resetPointMode` on every registered presenter. */
    method OnModeChange()
      requires Valid()
      modifies presenters.Values
      ensures Valid()
      ensures forall q :: q in presenters.Values ==>
                q.State() == Reset(old(q.State())) && q.routePoint == old(q.routePoint)
    {
      ResetAll(presenters.Values);
    }

    /** A click on the open-edit button of a registered presenter: the presenter was built
        without the new-point form hooks, so the handler throws and nothing changes. */
    method OnOpenEditOf(id: string, newPointFormOpen: bool) returns (result: OpenResult)
      requires Valid() && id in presenters
      modifies presenters.Values
      ensures result == Threw
      ensures forall q :: q in presenters.Values ==> q.State() == old(q.State())
      ensures Valid()
    {
      result := presenters[id].OnOpenEditButtonClick(newPointFormOpen, presenters.Values);
    }
  }
}
