/**
 * The calculator's pipeline: room geometry, total absorption over the room's
 * surfaces, and the fixed scenario the entry point runs.
 */
module MainApp {
  import opened Wrappers
  import opened Errors
  import opened Dicts
  import opened Documents
  import opened Materials
  import opened Acoustics

  // ---------------------------------------------------------------- geometry

  /** Floor, ceiling and walls of a rectangular L x W x H room, in that order. */
  function ComputeSurfaceAreas(L: real, W: real, H: real): (areas: Dict<real>)
    ensures areas.order == ["floor", "ceiling", "walls"]
    ensures areas.at.Keys == {"floor", "ceiling", "walls"}
    ensures areas.at["floor"] == areas.at["ceiling"]
  {
    var floor := L * W;
    var ceiling := L * W;
    var walls := 2.0 * (L + W) * H;
    Entries(["floor", "ceiling", "walls"], map["floor" := floor, "ceiling" := ceiling, "walls" := walls])
  }

  /** The volume of the L x W x H room: its floor area times its height; no dimension is validated, so any sign propagates. */
  function ComputeVolume(L: real, W: real, H: real): (v: real)
    ensures v == ComputeSurfaceAreas(L, W, H).at["floor"] * H
  {
    L * W * H
  }

  /** The three areas are the faces of the L x W x H box: floor and ceiling are L x W, the walls its perimeter times H. */
  lemma SurfaceAreasOfBox(L: real, W: real, H: real)
    ensures ComputeSurfaceAreas(L, W, H).at["floor"] == L * W
    ensures ComputeSurfaceAreas(L, W, H).at["walls"] == 2.0 * (L + W) * H
    ensures ComputeSurfaceAreas(L, W, H).at["floor"] + ComputeSurfaceAreas(L, W, H).at["ceiling"]
      + ComputeSurfaceAreas(L, W, H).at["walls"] == 2.0 * (L * W + W * H + H * L)
  {
  }

  /** A room with positive dimensions has positive volume and positive surface areas. */
  lemma PositiveRoom(L: real, W: real, H: real)
    requires L > 0.0 && W > 0.0 && H > 0.0
    ensures ComputeVolume(L, W, H) > 0.0
    ensures forall s :: s in ComputeSurfaceAreas(L, W, H).at ==> ComputeSurfaceAreas(L, W, H).at[s] > 0.0
  {
    assert L * W > 0.0;
    assert (L + W) * H > 0.0;
  }

  // -------------------------------------------------------------- absorption

  /** Surface `s` has an area, an assigned material, and that material a coefficient. */
  predicate Resolves(s: string, areas: map<string, real>, assignment: map<string, string>, coefficients: map<string, real>) {
    s in areas && s in assignment && assignment[s] in coefficients
  }

  predicate AllResolve(names: seq<string>, areas: map<string, real>, assignment: map<string, string>, coefficients: map<string, real>) {
    forall i :: 0 <= i < |names| ==> Resolves(names[i], areas, assignment, coefficients)
  }

  /** The absorption (area times coefficient) contributed by surface `s`. */
  function Term(s: string, areas: map<string, real>, assignment: map<string, string>, coefficients: map<string, real>): real
    requires Resolves(s, areas, assignment, coefficients)
  {
    areas[s] * coefficients[assignment[s]]
  }

  /** The absorption of the surfaces `names`, added up in that order. */
  function Sum(names: seq<string>, areas: map<string, real>, assignment: map<string, string>, coefficients: map<string, real>): real
    requires AllResolve(names, areas, assignment, coefficients)
    decreases |names|
  {
    if names == [] then 0.0
    else Sum(names[..|names| - 1], areas, assignment, coefficients) + Term(names[|names| - 1], areas, assignment, coefficients)
  }

  /** Surface `names[i]` is the first in `names` whose lookups fail. */
  predicate FirstUnresolved(names: seq<string>, i: int, areas: map<string, real>, assignment: map<string, string>, coefficients: map<string, real>) {
    0 <= i < |names| && !Resolves(names[i], areas, assignment, coefficients) && AllResolve(names[..i], areas, assignment, coefficients)
  }

  /** The key a failed lookup for surface `s` reports: the surface, or else its material. */
  function MissingKey(s: string, assignment: map<string, string>): Error {
    if s !in assignment then LookupError(s) else LookupError(assignment[s])
  }

  /**
   * Total absorption: for each surface in the iteration order of
   * `surfaceAreas`, look up its material and that material's coefficient, and
   * add area times coefficient. The first lookup that finds nothing ends the
   * loop with its key. The other two dicts are only looked up, so their order
   * plays no part.
   */
  method TotalAbsorption(surfaceAreas: Dict<real>, surfaceToMaterial: map<string, string>, materials: map<string, real>)
    returns (r: Result<real, Error>)
    ensures r.Success? <==> forall s :: s in surfaceAreas.at ==> Resolves(s, surfaceAreas.at, surfaceToMaterial, materials)
    ensures r.Success? ==> (AllResolve(surfaceAreas.order, surfaceAreas.at, surfaceToMaterial, materials)
      && r.value == Sum(surfaceAreas.order, surfaceAreas.at, surfaceToMaterial, materials))
    ensures r.Failure? ==> exists i :: (FirstUnresolved(surfaceAreas.order, i, surfaceAreas.at, surfaceToMaterial, materials)
      && r.error == MissingKey(surfaceAreas.order[i], surfaceToMaterial))
  {
    var order := surfaceAreas.order;
    var A := 0.0;
    for i := 0 to |order|
      invariant AllResolve(order[..i], surfaceAreas.at, surfaceToMaterial, materials)
      invariant A == Sum(order[..i], surfaceAreas.at, surfaceToMaterial, materials)
    {
      var surface := order[i];
      assert surface in surfaceAreas.at;
      var area := surfaceAreas.at[surface];
      if surface !in surfaceToMaterial {
        assert !Resolves(surface, surfaceAreas.at, surfaceToMaterial, materials);
        assert FirstUnresolved(order, i, surfaceAreas.at, surfaceToMaterial, materials);
        return Failure(LookupError(surface));
      }
      var mat := surfaceToMaterial[surface];
      if mat !in materials {
        assert !Resolves(surface, surfaceAreas.at, surfaceToMaterial, materials);
        assert FirstUnresolved(order, i, surfaceAreas.at, surfaceToMaterial, materials);
        return Failure(LookupError(mat));
      }
      SumExtend(order, i, surfaceAreas.at, surfaceToMaterial, materials);
      A := A + area * materials[mat];
    }
    assert order[..|order|] == order;
    AllResolveCoversKeys(surfaceAreas, surfaceToMaterial, materials);
    return Success(A);
  }

  /** Resolving every surface in the iteration order resolves every surface of the dict. */
  lemma AllResolveCoversKeys(areas: Dict<real>, assignment: map<string, string>, coefficients: map<string, real>)
    requires AllResolve(areas.order, areas.at, assignment, coefficients)
    ensures forall s :: s in areas.at ==> Resolves(s, areas.at, assignment, coefficients)
  {
    forall s | s in areas.at
      ensures Resolves(s, areas.at, assignment, coefficients)
    {
      var k :| 0 <= k < |areas.order| && areas.order[k] == s;
    }
  }

  /** One more iteration of the loop: the surface at position i is added after those before it. */
  lemma SumExtend(names: seq<string>, i: nat, areas: map<string, real>, assignment: map<string, string>, coefficients: map<string, real>)
    requires i < |names|
    requires AllResolve(names[..i], areas, assignment, coefficients)
    requires Resolves(names[i], areas, assignment, coefficients)
    ensures AllResolve(names[..i + 1], areas, assignment, coefficients)
    ensures Sum(names[..i + 1], areas, assignment, coefficients)
      == Sum(names[..i], areas, assignment, coefficients) + Term(names[i], areas, assignment, coefficients)
  {
    assert names[..i + 1][..i] == names[..i];
  }

  lemma {:induction false} SumAppend(p: seq<string>, q: seq<string>, areas: map<string, real>, assignment: map<string, string>, coefficients: map<string, real>)
    requires AllResolve(p, areas, assignment, coefficients) && AllResolve(q, areas, assignment, coefficients)
    ensures AllResolve(p + q, areas, assignment, coefficients)
    ensures Sum(p + q, areas, assignment, coefficients) == Sum(p, areas, assignment, coefficients) + Sum(q, areas, assignment, coefficients)
    decreases |q|
  {
    if q == [] {
      assert p + q == p;
    } else {
      var q' := q[..|q| - 1];
      SumAppend(p, q', areas, assignment, coefficients);
      assert (p + q)[..|p + q| - 1] == p + q';
    }
  }

  lemma AllResolvePermutation(a: seq<string>, b: seq<string>, areas: map<string, real>, assignment: map<string, string>, coefficients: map<string, real>)
    requires multiset(a) == multiset(b)
    requires AllResolve(a, areas, assignment, coefficients)
    ensures AllResolve(b, areas, assignment, coefficients)
  {
    forall i | 0 <= i < |b|
      ensures Resolves(b[i], areas, assignment, coefficients)
    {
      assert b[i] in multiset(a);
      var k :| 0 <= k < |a| && a[k] == b[i];
    }
  }

  /** Taking surface `j` out of the list takes its term out of the sum. */
  lemma SumRemove(b: seq<string>, j: nat, areas: map<string, real>, assignment: map<string, string>, coefficients: map<string, real>)
    requires j < |b| && AllResolve(b, areas, assignment, coefficients)
    ensures AllResolve(b[..j] + b[j + 1..], areas, assignment, coefficients)
    ensures Sum(b, areas, assignment, coefficients)
      == Sum(b[..j] + b[j + 1..], areas, assignment, coefficients) + Term(b[j], areas, assignment, coefficients)
  {
    var b1, x, b2 := b[..j], b[j], b[j + 1..];
    assert b == b1 + [x] + b2;
    assert AllResolve(b1, areas, assignment, coefficients) && AllResolve(b2, areas, assignment, coefficients);
    assert AllResolve([x], areas, assignment, coefficients);
    assert [x][..0] == [];
    SumAppend(b1, b2, areas, assignment, coefficients);
    SumAppend(b1, [x], areas, assignment, coefficients);
    SumAppend(b1 + [x], b2, areas, assignment, coefficients);
  }

  /**
   * The total does not depend on the order the surfaces are visited in: any
   * rearrangement of them adds up to the same absorption.
   */
  lemma {:induction false} SumPermutation(a: seq<string>, b: seq<string>, areas: map<string, real>, assignment: map<string, string>, coefficients: map<string, real>)
    requires multiset(a) == multiset(b)
    requires AllResolve(a, areas, assignment, coefficients)
    ensures AllResolve(b, areas, assignment, coefficients)
    ensures Sum(a, areas, assignment, coefficients) == Sum(b, areas, assignment, coefficients)
    decreases |a|
  {
    AllResolvePermutation(a, b, areas, assignment, coefficients);
    if a != [] {
      var a', x := a[..|a| - 1], a[|a| - 1];
      assert x in multiset(b);
      var j :| 0 <= j < |b| && b[j] == x;
      SumRemove(b, j, areas, assignment, coefficients);
      RemoveFromPermutation(a, b, j);
      SumPermutation(a', b[..j] + b[j + 1..], areas, assignment, coefficients);
    }
  }

  /** Removing the same element from two permutations of each other leaves permutations of each other. */
  lemma RemoveFromPermutation(a: seq<string>, b: seq<string>, j: nat)
    requires multiset(a) == multiset(b)
    requires a != [] && j < |b| && b[j] == a[|a| - 1]
    ensures multiset(a[..|a| - 1]) == multiset(b[..j] + b[j + 1..])
  {
    var a', x := a[..|a| - 1], a[|a| - 1];
    assert a == a' + [x];
    assert b == b[..j] + [x] + b[j + 1..];
    assert multiset(a) == multiset(a') + multiset{x};
    assert multiset(b) == multiset(b[..j]) + multiset{x} + multiset(b[j + 1..]);
    assert multiset(b[..j] + b[j + 1..]) == multiset(b[..j]) + multiset(b[j + 1..]);
    assert multiset(a') == multiset(a) - multiset{x};
    assert multiset(b[..j] + b[j + 1..]) == multiset(b) - multiset{x};
  }

  /** The sum of the areas of the surfaces `names`. */
  function TotalArea(names: seq<string>, areas: map<string, real>): real
    requires forall i :: 0 <= i < |names| ==> names[i] in areas
    decreases |names|
  {
    if names == [] then 0.0 else TotalArea(names[..|names| - 1], areas) + areas[names[|names| - 1]]
  }

  /**
   * With non-negative areas and coefficients in [0, 1], the total absorption
   * is between 0 and the total surface area.
   */
  lemma {:induction false} SumBounds(names: seq<string>, areas: map<string, real>, assignment: map<string, string>, coefficients: map<string, real>)
    requires AllResolve(names, areas, assignment, coefficients)
    requires forall i :: 0 <= i < |names| ==> areas[names[i]] >= 0.0
    requires forall m :: m in coefficients ==> InUnitRange(coefficients[m])
    ensures 0.0 <= Sum(names, areas, assignment, coefficients) <= TotalArea(names, areas)
    decreases |names|
  {
    if names != [] {
      var s := names[|names| - 1];
      SumBounds(names[..|names| - 1], areas, assignment, coefficients);
      var a, c := areas[s], coefficients[assignment[s]];
      assert 0.0 <= a * c <= a by {
        assert a * (1.0 - c) >= 0.0;
      }
      assert Sum(names, areas, assignment, coefficients) == Sum(names[..|names| - 1], areas, assignment, coefficients) + a * c;
      assert TotalArea(names, areas) == TotalArea(names[..|names| - 1], areas) + a;
    }
  }

  // ------------------------------------------------------------ the scenario

  /** The fixed room of the entry point, in metres. */
  const Length: real := 3.5
  const Width: real := 4.0
  const Height: real := 3.5

  /** The fixed assignment of the entry point: carpet on the floor, painted concrete elsewhere. */
  function ScenarioAssignment(): (a: Dict<string>)
    ensures a.at.Keys == ComputeSurfaceAreas(Length, Width, Height).at.Keys
    ensures forall s :: s in a.at ==> a.at[s] == "carpet" || a.at[s] == "concrete_painted"
  {
    Entries(["floor", "ceiling", "walls"],
            map["floor" := "carpet", "ceiling" := "concrete_painted", "walls" := "concrete_painted"])
  }

  /** What the entry point reports. */
  datatype Report = Report(volume: real, areas: Dict<real>, assignment: Dict<string>, absorption: real, rt60: real)

  lemma ScenarioGeometry()
    ensures ComputeVolume(Length, Width, Height) == 49.0
    ensures ComputeSurfaceAreas(Length, Width, Height).at == map["floor" := 14.0, "ceiling" := 14.0, "walls" := 52.5]
  {
  }

  /**
   * In the scenario room the floor contributes 14 m^2 of carpet and the
   * ceiling and walls 66.5 m^2 of painted concrete.
   */
  lemma ScenarioSum(coefficients: map<string, real>)
    requires "carpet" in coefficients && "concrete_painted" in coefficients
    ensures AllResolve(ComputeSurfaceAreas(Length, Width, Height).order, ComputeSurfaceAreas(Length, Width, Height).at, ScenarioAssignment().at, coefficients)
    ensures Sum(ComputeSurfaceAreas(Length, Width, Height).order, ComputeSurfaceAreas(Length, Width, Height).at, ScenarioAssignment().at, coefficients)
      == 14.0 * coefficients["carpet"] + 66.5 * coefficients["concrete_painted"]
  {
    var areas := ComputeSurfaceAreas(Length, Width, Height).at;
    var assignment := ScenarioAssignment().at;
    var order := ["floor", "ceiling", "walls"];
    assert AllResolve(order, areas, assignment, coefficients);
    assert order[..2] == ["floor", "ceiling"];
    assert ["floor", "ceiling"][..1] == ["floor"];
    assert ["floor"][..0] == [];
    var carpet, concrete := coefficients["carpet"], coefficients["concrete_painted"];
    assert Sum(["floor"], areas, assignment, coefficients) == 14.0 * carpet;
    assert Sum(["floor", "ceiling"], areas, assignment, coefficients) == 14.0 * carpet + 14.0 * concrete;
    assert Sum(order, areas, assignment, coefficients) == 14.0 * carpet + 14.0 * concrete + 52.5 * concrete;
  }

  /**
   * In the scenario the first surface whose lookup fails is the floor when
   * carpet is missing from the catalog, and otherwise one whose material,
   * painted concrete, is missing.
   */
  lemma ScenarioLookupFailure(coefficients: map<string, real>, i: nat)
    requires i < 3
    requires !Resolves(["floor", "ceiling", "walls"][i], ComputeSurfaceAreas(Length, Width, Height).at, ScenarioAssignment().at, coefficients)
    requires AllResolve(["floor", "ceiling", "walls"][..i], ComputeSurfaceAreas(Length, Width, Height).at, ScenarioAssignment().at, coefficients)
    ensures "carpet" !in coefficients ==> MissingKey(["floor", "ceiling", "walls"][i], ScenarioAssignment().at) == LookupError("carpet")
    ensures "carpet" in coefficients ==> ("concrete_painted" !in coefficients
      && MissingKey(["floor", "ceiling", "walls"][i], ScenarioAssignment().at) == LookupError("concrete_painted"))
  {
    if i > 0 {
      assert ["floor", "ceiling", "walls"][..i][0] == "floor";
    }
  }

  /** With carpet 0.3 and painted concrete 0.07 the total absorption is 8.855 m^2 and RT60 is about 0.891 s. */
  lemma ScenarioExample()
    ensures Sum(["floor", "ceiling", "walls"], ComputeSurfaceAreas(Length, Width, Height).at, ScenarioAssignment().at,
                map["carpet" := 0.3, "concrete_painted" := 0.07]) == 8.855
    ensures Rt60Sabine(49.0, 8.855) == Success(0.161 * 49.0 / 8.855)
    ensures 0.89 < Rt60Sabine(49.0, 8.855).value < 0.892
  {
    ScenarioSum(map["carpet" := 0.3, "concrete_painted" := 0.07]);
  }

  /**
   * The entry point without its printing: the fixed room and assignment, the
   * catalog loaded from `doc` (which stands for the configuration file), the
   * total absorption and the RT60 estimate.
   */
  method RunScenario(doc: Node) returns (r: Result<Report, Error>)
    ensures Load(doc).Failure? ==> r == Failure(Load(doc).error)
    ensures Load(doc).Success? && "carpet" !in Load(doc).value.at ==> r == Failure(LookupError("carpet"))
    ensures Load(doc).Success? && "carpet" in Load(doc).value.at && "concrete_painted" !in Load(doc).value.at
      ==> r == Failure(LookupError("concrete_painted"))
    ensures Load(doc).Success? && "carpet" in Load(doc).value.at && "concrete_painted" in Load(doc).value.at
      ==> (r.Success? <==> Load(doc).value.at["carpet"] > 0.0 || Load(doc).value.at["concrete_painted"] > 0.0)
    ensures Load(doc).Success? && "carpet" in Load(doc).value.at && "concrete_painted" in Load(doc).value.at
      && !(Load(doc).value.at["carpet"] > 0.0) && !(Load(doc).value.at["concrete_painted"] > 0.0)
      ==> r == Failure(DomainError(0.0))
    ensures r.Success? ==>
      && r.value.volume == 49.0
      && r.value.areas == ComputeSurfaceAreas(Length, Width, Height)
      && r.value.assignment == ScenarioAssignment()
      && r.value.absorption == 14.0 * Load(doc).value.at["carpet"] + 66.5 * Load(doc).value.at["concrete_painted"]
      && Rt60Sabine(r.value.volume, r.value.absorption) == Success(r.value.rt60)
  {
    var L, W, H := Length, Width, Height;
    var V := ComputeVolume(L, W, H);
    assert V == 49.0;
    var areas := ComputeSurfaceAreas(L, W, H);
    var surfaceToMaterial := ScenarioAssignment();
    var loaded := LoadMaterials(doc);
    if loaded.Failure? {
      return Failure(loaded.error);
    }
    var materials := loaded.value;
    var total := TotalAbsorption(areas, surfaceToMaterial.at, materials.at);
    if total.Failure? {
      var i :| FirstUnresolved(areas.order, i, areas.at, surfaceToMaterial.at, materials.at)
        && total.error == MissingKey(areas.order[i], surfaceToMaterial.at);
      ScenarioLookupFailure(materials.at, i);
      return Failure(total.error);
    }
    var A := total.value;
    assert Resolves("floor", areas.at, surfaceToMaterial.at, materials.at);
    assert Resolves("walls", areas.at, surfaceToMaterial.at, materials.at);
    ScenarioSum(materials.at);
    LoadedCatalog(doc);
    var carpet, concrete := materials.at["carpet"], materials.at["concrete_painted"];
    assert InUnitRange(carpet) && InUnitRange(concrete);
    assert A == 14.0 * carpet + 66.5 * concrete;
    var rt60 := Rt60Sabine(V, A);
    if rt60.Failure? {
      return Failure(rt60.error);
    }
    return Success(Report(V, areas, surfaceToMaterial, A, rt60.value));
  }
}
