/** The setup_automation cycle check: depth-first search against the existence of a closed walk. */
module SetupCycles {

  /** A parsed setup_automation entry.  Case ids are only ever compared for equality. */
  datatype Spec<Id> = Case(target: Id) | Node

  datatype Item<Id> = Item(id: Id, entries: seq<Spec<Id>>)

  /** The cases by id; the last of several items with one id wins. */
  type Cases<!Id> = map<Id, seq<Spec<Id>>>

  function ById<Id>(items: seq<Item<Id>>): Cases<Id> {
    if items == [] then map[]
    else
      var last := items[|items| - 1];
      ById(items[..|items| - 1])[last.id := last.entries]
  }

  /** The last item with an id decides what it points to. */
  lemma {:induction false} LastItemWins<Id>(items: seq<Item<Id>>, i: nat)
    requires i < |items| && forall j | i < j < |items| :: items[j].id != items[i].id
    ensures items[i].id in ById(items) && ById(items)[items[i].id] == items[i].entries
    ensures forall id | id in ById(items) :: exists k :: 0 <= k < |items| && items[k].id == id
  {
    var n := |items| - 1;
    if i < n {
      LastItemWins(items[..n], i);
    }
    OnlyItems(items);
  }

  lemma {:induction false} OnlyItems<Id>(items: seq<Item<Id>>)
    ensures forall id | id in ById(items) :: exists k :: 0 <= k < |items| && items[k].id == id
  {
    if items != [] {
      var n := |items| - 1;
      OnlyItems(items[..n]);
      forall id | id in ById(items) ensures exists k :: 0 <= k < |items| && items[k].id == id {
        if id != items[n].id {
          assert id in ById(items[..n]);
          var k :| 0 <= k < |items[..n]| && items[..n][k].id == id;
          assert items[k].id == id;
        }
      }
    }
  }

  ghost predicate Points<Id>(cases: Cases<Id>, a: Id, b: Id) {
    a in cases && Case(b) in cases[a]
  }

  /** Steps along `case:` entries; the last id may be unknown. */
  ghost predicate IsWalk<Id>(cases: Cases<Id>, w: seq<Id>) {
    w != [] && forall i | 0 <= i < |w| - 1 :: Points(cases, w[i], w[i + 1])
  }

  /** A closed walk passes only known ids, since it leaves each of them. */
  ghost predicate IsCycle<Id>(cases: Cases<Id>, w: seq<Id>) {
    IsWalk(cases, w) && |w| > 1 && w[0] == w[|w| - 1]
  }

  /** `cycle` is the closed walk with its first id written once more. */
  datatype CycleError<Id> = CycleError(id: Id, cycle: seq<Id>)

  ghost predicate IsGenuine<Id>(cases: Cases<Id>, e: CycleError<Id>) {
    && |e.cycle| > 1 && e.cycle[|e.cycle| - 1] == e.id
    && IsCycle(cases, e.cycle[..|e.cycle| - 1]) && e.cycle[0] == e.id
  }

  /** In finishing order every known successor comes earlier. */
  ghost predicate Topological<Id>(cases: Cases<Id>, order: seq<Id>) {
    && (forall i, j | 0 <= i < j < |order| :: order[i] != order[j])
    && (forall i, b | 0 <= i < |order| && b in cases && Points(cases, order[i], b) :: b in order[..i])
  }

  lemma {:induction false} WalkDescends<Id>(cases: Cases<Id>, order: seq<Id>, w: seq<Id>, i: nat)
    requires Topological(cases, order) && IsWalk(cases, w) && |w| > 1 && w[|w| - 1] in cases
    requires i < |order| && w[0] == order[i]
    ensures w[|w| - 1] in order[..i]
    decreases |w|
  {
    assert Points(cases, w[0], w[1]);
    if |w| > 2 {
      assert Points(cases, w[1], w[2]);
      assert w[1] in order[..i];
      var j :| 0 <= j < i && order[j] == w[1];
      var rest := w[1..];
      forall k | 0 <= k < |rest| - 1 ensures Points(cases, rest[k], rest[k + 1]) {
        assert Points(cases, w[k + 1], w[k + 2]);
      }
      WalkDescends(cases, order, rest, j);
      assert order[..j] <= order[..i];
    }
  }

  lemma OrderedCasesHaveNoCycle<Id>(cases: Cases<Id>, order: seq<Id>, w: seq<Id>)
    requires Topological(cases, order) && forall id | id in cases :: id in order
    ensures !IsCycle(cases, w)
  {
    if IsCycle(cases, w) {
      assert Points(cases, w[0], w[1]);
      var i :| 0 <= i < |order| && order[i] == w[0];
      WalkDescends(cases, order, w, i);
    }
  }

  lemma WalkExtends<Id>(cases: Cases<Id>, path: seq<Id>, k: nat)
    requires IsWalk(cases, path) && path[|path| - 1] in cases
    requires k < |cases[path[|path| - 1]]| && cases[path[|path| - 1]][k].Case?
    ensures IsWalk(cases, path + [cases[path[|path| - 1]][k].target])
  {
    var last := path[|path| - 1];
    var longer := path + [cases[last][k].target];
    assert Points(cases, last, longer[|path|]);
    forall i | 0 <= i < |longer| - 1 ensures Points(cases, longer[i], longer[i + 1]) {
      assert i < |path| - 1 ==> Points(cases, path[i], path[i + 1]);
    }
  }

  /** The part of the path from the first visit of its last id on is a closed walk. */
  lemma RevisitIsGenuine<Id>(cases: Cases<Id>, path: seq<Id>, i: nat)
    requires IsWalk(cases, path) && i < |path| - 1 && path[i] == path[|path| - 1]
    ensures IsGenuine(cases, CycleError(path[i], path[i..] + [path[i]]))
  {
    var w := path[i..];
    forall k | 0 <= k < |w| - 1 ensures Points(cases, w[k], w[k + 1]) {
      assert Points(cases, path[i + k], path[i + k + 1]);
    }
    assert (w + [path[i]])[..|w|] == w;
  }

  lemma FinishingKeepsOrder<Id>(cases: Cases<Id>, order: seq<Id>, id: Id)
    requires Topological(cases, order) && id !in order && id in cases
    requires forall k | 0 <= k < |cases[id]| && cases[id][k].Case? && cases[id][k].target in cases :: cases[id][k].target in order
    ensures Topological(cases, order + [id])
  {
    var longer := order + [id];
    forall i, b | 0 <= i < |longer| && b in cases && Points(cases, longer[i], b) ensures b in longer[..i] {
      if i < |order| {
        assert Points(cases, order[i], b);
        assert longer[..i] == order[..i];
      } else {
        assert longer[..i] == order;
      }
    }
  }

  function IndexOf<Id(==)>(path: seq<Id>, id: Id): (i: nat)
    requires id in path
    ensures i < |path| && path[i] == id && id !in path[..i]
  {
    if path[0] == id then 0 else 1 + IndexOf(path[1..], id)
  }

  class CycleValidator<Id(==, !new)> {
    const byId: Cases<Id>
    var visiting: set<Id>
    var visited: set<Id>
    var errors: seq<CycleError<Id>>
    ghost var order: seq<Id>

    ghost predicate Valid()
      reads this
    {
      && visiting !! visited
      && (forall id :: id in visited <==> id in order)
      && (forall i | 0 <= i < |errors| :: IsGenuine(byId, errors[i]))
      && (errors == [] ==> Topological(byId, order))
    }

    constructor (byId: Cases<Id>)
      ensures Valid() && this.byId == byId && visiting == {} && visited == {} && errors == []
    {
      this.byId := byId;
      visiting, visited, errors, order := {}, {}, [], [];
    }

    /** `visiting` is exactly the set of ids on the path to `id`. */
    method Visit(id: Id, path: seq<Id>)
      requires Valid() && IsWalk(byId, path) && path != [] && path[|path| - 1] == id
      requires forall x :: x in visiting <==> x in path[..|path| - 1]
      modifies this
      ensures Valid() && visiting == old(visiting)
      ensures visited >= old(visited) && old(errors) <= errors
      ensures id in byId && errors == [] ==> id in visited
      decreases byId.Keys - visiting - visited
    {
      hide Topological, IsGenuine, IsWalk;
      if id in visited {
        return;
      }
      if id in visiting {
        var i := IndexOf(path, id);
        RevisitIsGenuine(byId, path, i);
        errors := errors + [CycleError(id, path[i..] + [id])];
        return;
      }
      if id !in byId {
        return;
      }
      visiting := visiting + {id};
      for k := 0 to |byId[id]|
        invariant Valid() && visiting == old(visiting) + {id}
        invariant visited >= old(visited) && old(errors) <= errors
        invariant errors == [] ==> forall j | 0 <= j < k ::
                    byId[id][j].Case? && byId[id][j].target in byId ==> byId[id][j].target in visited
      {
        var spec := byId[id][k];
        if spec.Case? {
          var longer := path + [spec.target];
          assert longer[..|longer| - 1] == path;
          WalkExtends(byId, path, k);
          assert byId.Keys - visiting - visited <= byId.Keys - old(visiting) - old(visited) - {id};
          Visit(spec.target, longer);
        }
      }
      if errors == [] {
        FinishingKeepsOrder(byId, order, id);
      }
      visiting := visiting - {id};
      visited := visited + {id};
      order := order + [id];
    }
  }

  /** The whole check: an error is reported exactly when the known cases have a cycle. */
  method ValidateSetupAutomationCycles<Id(==, !new)>(items: seq<Item<Id>>) returns (errors: seq<CycleError<Id>>)
    ensures errors != [] <==> exists w :: IsCycle(ById(items), w)
    ensures forall i | 0 <= i < |errors| :: IsGenuine(ById(items), errors[i])
  {
    var byId: Cases<Id> := map[];
    var ids: seq<Id> := [];
    for k := 0 to |items|
      invariant byId == ById(items[..k])
      invariant forall id :: id in ids <==> id in byId
    {
      assert items[..k + 1][..k] == items[..k];
      if items[k].id !in byId {
        ids := ids + [items[k].id];
      }
      byId := byId[items[k].id := items[k].entries];
    }
    assert items[..|items|] == items;
    var validator := new CycleValidator(byId);
    for k := 0 to |ids|
      invariant validator.Valid() && validator.byId == byId && validator.visiting == {} && fresh(validator)
      invariant validator.errors == [] ==> forall j | 0 <= j < k :: ids[j] in validator.visited
    {
      validator.Visit(ids[k], [ids[k]]);
    }
    errors := validator.errors;
    if errors == [] {
      forall w ensures !IsCycle(byId, w) {
        OrderedCasesHaveNoCycle(byId, validator.order, w);
      }
    } else {
      assert IsGenuine(byId, errors[0]);
    }
  }
}
