# Room acoustics: a verified model of the single-band RT60 calculator

The repository is a small Python tool. It estimates the reverberation time (RT60) of a
rectangular room at about 500 Hz, using Sabine's formula. It has four parts, and this
project models each of them in Dafny:

- **the materials catalog** (`src/materials.py`). `load_materials` reads a YAML document
  and requires it to be a mapping. It converts every value with `float()` and rejects
  any coefficient outside [0, 1]. `list_materials` returns the material names in sorted
  order. The module is `Materials`. It builds on `Documents`, which holds the parsed YAML
  values and a model of `float()`, and on `Lexicographic`, which holds Python's string
  order and a sort.
- **room geometry** (`src/mainapp.py`). `compute_surface_areas` returns the floor,
  ceiling and wall areas of a box. `compute_volume` returns its volume. The module is
  `MainApp`.
- **total absorption** (`src/mainapp.py`). `total_absorption` is a loop over the surfaces
  that looks up each surface's material and its coefficient and accumulates
  area × coefficient. It is modelled as a method with a loop, proved against a recursive
  specification `MainApp.Sum`.
- **the Sabine formula** (`src/acoustics.py`). `rt60_sab` returns 0.161·V/A and refuses
  A ≤ 0. The module is `Acoustics`.

`main` is modelled as `MainApp.RunScenario`. It takes the room 3.5 m × 4.0 m × 3.5 m, with
a carpet floor and painted concrete for the ceiling and walls. It loads the catalog, sums
the absorption and applies Sabine's formula.

How the Python is represented:

- Python exceptions become `Result` values with a `Failure(Error)` case. `Errors.Error`
  tells the failure causes apart:
  - `FormatError`: the document is not a mapping.
  - `ConversionError`: `float()` fails.
  - `RangeError`: the coefficient is out of range.
  - `LookupError`: a `KeyError`.
  - `DomainError`: the area is not positive.

  The source itself raises `ValueError`, `TypeError` or `KeyError`.
- Python dicts are modelled as `Dicts.Dict`. It keeps the insertion order, which is the
  iteration order, beside the key-to-value map. The loops in the source visit entries in
  that order, so "the first failing entry" means the same thing in the model as in Python.
- The YAML document is a value of type `Documents.Node`. Floats are `Documents.Double`:
  a finite real, ±infinity or NaN, so that Python's comparisons on NaN and infinity can be
  modelled. Arithmetic in the geometry and absorption parts is over `real`.

## Model

| member | source | states |
|---|---|---|
| Materials.LoadMaterials | src/materials.py:19-27 | The loop returns exactly `Load(doc)`. A non-mapping document gives a format error. The first entry, in iteration order, that fails conversion or the range check gives the error. Otherwise the catalog holds every name in the same order, with its converted coefficient. |
| Materials.Load | src/materials.py:19-27 | A document that is not a mapping gives a format error. A loaded catalog has exactly the document's keys, in the document's order. |
| Materials.CheckEntryAsWritten | src/materials.py:23-25 | One pass of the loop as written. A conversion error is reported exactly when `float()` fails. An accepted value is `float()` of the entry, is never infinite, and lies in [0, 1] when finite, so NaN is the only value outside [0, 1] that it accepts. |
| Materials.CheckEntry | src/materials.py:23-25 | One pass of the loop with NaN refused. An accepted value is the finite `float()` of the entry and lies in [0, 1]. A failure is a conversion error exactly when `float()` fails, and otherwise a range error carrying the converted value. |
| Materials.ConvertAll | src/materials.py:22-25 | A successful conversion has exactly the visited names as keys. |
| Materials.ConvertAllFailurePersists | src/materials.py:22-25 | Once an entry has failed, the later entries cannot change the outcome, because the loop stops at the first raise. |
| Materials.ConvertAllSucceedsIff | src/materials.py:22-25 | Conversion succeeds if and only if every entry converts to a finite number in [0, 1]. |
| Materials.ConvertAllValues | src/materials.py:22-23 | Every stored value is the `float()` of the original entry. |
| Materials.ConvertAllFirstFailure | src/materials.py:22-25 | A failure names an entry that is unacceptable. Every entry before it is acceptable. The error is the one that entry raises. |
| Materials.LoadRejectsNonMapping | src/materials.py:19-20 | A document that is not a mapping is refused with a format error. |
| Materials.LoadSucceedsIff | src/materials.py:19-25 | Loading succeeds if and only if the document is a mapping and every value is an acceptable coefficient. |
| Materials.LoadedCatalog | src/materials.py:22-27 | A loaded catalog has the document's keys, in the document's order. Each value is `float()` of the document's value and lies in [0, 1]. |
| Materials.LoadReportsFirstBadEntry | src/materials.py:22-25 | On failure, the reported entry is the first unacceptable one in iteration order. The error is a conversion error when `float()` fails, and otherwise a range error carrying the converted value. |
| Materials.CheckEntryKeepsOnlyCoefficients | src/materials.py:23-25 | The per-entry check accepts a value if and only if it converts to a finite number in [0, 1]. On every value that does not convert to NaN, it agrees with the check as written. |
| Materials.NaNPassesRangeCheckAsWritten | src/materials.py:24-25 | The range check as written accepts NaN, both from a float and from the text "nan", although NaN is not a coefficient. |
| Materials.LoadKeepsGoodEntry | src/materials.py:22-27 | Example: carpet 0.3 is kept as 0.3. |
| Materials.LoadAcceptsBounds | src/materials.py:24 | Both bounds 0 and 1 are accepted. The check is inclusive. |
| Materials.LoadRefusesOutOfRange | src/materials.py:24-25 | 1.5, -0.1, +infinity and NaN are refused with a range error. |
| Materials.LoadRefusesNonNumber | src/materials.py:23 | Non-numeric text and a null are refused with a conversion error. |
| Materials.ListMaterials | src/materials.py:38 | The result is strictly increasing in Python's string order, has no duplicates, and contains exactly the catalog's keys, each once. |
| Materials.ListMaterialsUnique | src/materials.py:38 | Any strictly sorted list of exactly the catalog's keys equals the result, so the result does not depend on how it is sorted. |
| Materials.ListMaterialsExample | src/materials.py:38 | Keys inserted as b, a are listed as a, b. |
| Lexicographic.Sort | src/materials.py:38 | Sorting distinct strings gives a strictly sorted permutation of them. |
| Lexicographic.SortedUnique | src/materials.py:38 | Two strictly sorted sequences with the same elements are equal. |
| Lexicographic.LessTransitive | src/materials.py:38 | Python's string `<` is transitive. |
| Lexicographic.LessTotal | src/materials.py:38 | Python's string `<` orders any two distinct strings. |
| Documents.ToFloat | src/materials.py:23 | `float()` fails only on null, lists, mappings and text. Ints and bools always give a finite value. |
| Documents.ToFloatByKind | src/materials.py:23 | `float()` maps an int to itself, keeps a float, maps a bool to 1.0 or 0.0, and fails on null, list and mapping. |
| Documents.ToFloatOfDecimalText | src/materials.py:23 | `float("0.3")` is 0.3. |
| Documents.ToFloatOfNegativeDecimalText | src/materials.py:23 | `float("-0.1")` is -0.1. |
| Documents.ToFloatOfIntegerText | src/materials.py:23 | `float("1")` is 1.0. |
| Documents.ToFloatOfNonNumericText | src/materials.py:23 | `float()` fails on "x", "." and "". |
| Documents.SpecialText | src/materials.py:23 | Any letter case of "nan", "inf" and "infinity" converts to NaN or +infinity. A leading plus changes nothing. A leading minus gives -infinity, and NaN stays NaN. |
| Documents.ToFloatOfNaNText | src/materials.py:23 | `float("nan")` and `float("NaN")` are NaN. |
| Documents.ToFloatOfInfinityText | src/materials.py:23 | `float("inf")` is +infinity. |
| Documents.ToFloatOfNegativeInfinityText | src/materials.py:23 | `float("-INF")` is -infinity. |
| MainApp.ComputeSurfaceAreas | src/mainapp.py:19-33 | The result has exactly the keys floor, ceiling and walls, in that order. Floor and ceiling are equal. |
| MainApp.SurfaceAreasOfBox | src/mainapp.py:30-33 | Floor is L·W and walls are 2(L+W)·H. The three areas add up to the box surface 2(LW+WH+HL). |
| MainApp.ComputeVolume | src/mainapp.py:35-46 | The volume is the floor area times the height, with no sign check on the dimensions. |
| MainApp.PositiveRoom | src/mainapp.py:30-46 | A room with positive sides has a positive volume and positive surface areas. |
| MainApp.TotalAbsorption | src/mainapp.py:48-63 | The loop succeeds if and only if every surface has a material and that material has a coefficient. It then returns the sum of area × coefficient over the surfaces. Otherwise it reports the `KeyError` of the first surface, in iteration order, that does not resolve. |
| MainApp.SumPermutation | src/mainapp.py:59-63 | The total does not depend on the order in which the surfaces are visited. |
| MainApp.SumBounds | src/mainapp.py:59-63 | With non-negative areas and coefficients in [0, 1], the total lies between 0 and the total surface area. |
| MainApp.ScenarioAssignment | src/mainapp.py:83-87 | Every surface of the room, and nothing else, has a material, and each material is carpet or painted concrete. |
| MainApp.ScenarioGeometry | src/mainapp.py:76-80 | The room 3.5 × 4.0 × 3.5 has volume 49 m³, floor and ceiling areas of 14 m² and a wall area of 52.5 m². |
| MainApp.ScenarioSum | src/mainapp.py:83-93 | With both materials present, the total absorption is 14·carpet + 66.5·concrete_painted. |
| MainApp.ScenarioLookupFailure | src/mainapp.py:83-93 | A surface that does not resolve reports `KeyError("carpet")` when carpet is missing, and otherwise `KeyError("concrete_painted")`. |
| MainApp.ScenarioExample | src/mainapp.py:76-94 | With carpet 0.3 and painted concrete 0.07, A is 8.855 m² and RT60 lies between 0.89 s and 0.892 s. |
| MainApp.RunScenario | src/mainapp.py:66-94 | A load failure is passed on. A missing carpet or painted-concrete coefficient is a `KeyError` naming it. With both present, the run succeeds if and only if one of them is positive. When both are 0, it fails with the domain error of `rt60_sab` for area 0. A result has volume 49, the room's surface areas, the fixed assignment, A = 14·carpet + 66.5·concrete and RT60 = Sabine(49, A). |
| Acoustics.Rt60Sabine | src/acoustics.py:6-20 | Fails exactly when the absorption area is at most 0, carrying that area. Otherwise RT60 · A = 0.161 · V. |
| Acoustics.Rt60Positive | src/acoustics.py:18-20 | A positive volume and a positive area give a positive RT60. |
| Acoustics.Rt60FallsWithAbsorption | src/acoustics.py:20 | For a fixed positive volume, more absorption gives a strictly shorter RT60. |
| Acoustics.Rt60ProportionalToVolume | src/acoustics.py:20 | For a fixed area, RT60 is proportional to the volume and strictly increasing in it. |
| Acoustics.Rt60IsSabineFormula | src/acoustics.py:18-20 | For a positive area, the result is exactly 0.161 · V / A. |
| Acoustics.Rt60Examples | src/acoustics.py:18-20 | Areas 0 and -1 are refused. A zero or negative volume is not refused. |

## Left out

- Opening the file and parsing YAML (`src/materials.py:16-17`) are left out. The parsed
  document is a parameter of `Materials.Load`, `Materials.LoadMaterials` and
  `MainApp.RunScenario`. `data/materials.yaml` is not part of this model, so the scenario
  uses the example coefficients carpet 0.3 and painted concrete 0.07 in
  `MainApp.ScenarioExample`.
- Mapping keys are strings only. YAML documents whose keys are numbers or other values are
  not modelled.
- `float()` on text covers an optional sign, ASCII digits with at most one decimal point,
  and `nan`, `inf` and `infinity` in any letter case. Python also accepts inputs that the
  model treats as not convertible:
  - surrounding whitespace, including Unicode whitespace;
  - exponents;
  - digit-group underscores;
  - non-ASCII decimal digits.
- YAML values with no case in `Documents.Node` are not modelled. This covers `!!binary`
  values: they load as `bytes`, which `float()` also accepts. It also covers dates and
  other tagged values.
- Floating-point rounding is left out. Finite values are exact reals, so the order in which
  `total_absorption` sums its terms does not matter in the model (`MainApp.SumPermutation`).
  Under IEEE 754 arithmetic the order can change the last bits. Overflow of a very large
  YAML integer in `float()` is also left out.
- `Materials.LoadMaterials` builds a new map of converted values instead of overwriting the
  YAML dict's values in place. The results are the same: on success every value has been
  replaced, and on failure the dict is discarded.
- The `load_materials` docstring promises that the catalog is in alphabetic order. The code
  does not sort, and the model follows the code: the catalog keeps the document's order,
  as `Materials.LoadedCatalog` states. Only `list_materials` sorts.
- The `sorted()` of `list_materials` is modelled by an insertion sort in
  `Lexicographic.Sort`. `Materials.ListMaterialsUnique` shows that any correct sort gives
  the same list.
- `MainApp.TotalAbsorption` takes `surface_to_material` and `materials` as plain maps,
  because the source only looks them up. `surface_areas` keeps its order, because the
  source iterates over it.
- `MainApp.RunScenario` does not model printing the report or formatting numbers
  (`src/mainapp.py:96-102`). It also does not model building the data-file path
  (`src/mainapp.py:10-11`).
- `tests/conftest.py` only adjusts the import path and is not part of this model.
- Materials.LoadMaterials, Materials.Load: these deliberately differ from the source on
  NaN. They use the corrected per-entry check `Materials.CheckEntry`, which refuses NaN.
  The check as written is kept as `Materials.CheckEntryAsWritten` (see Findings). On every
  other value the two agree (`Materials.CheckEntryKeepsOnlyCoefficients`).

## Findings

| source | as written | input that shows it | evidently intended | confidence | as-written member | corrected member |
|---|---|---|---|---|---|---|
| src/materials.py:24 | `data[name] < 0 or data[name] > 1` is the only range check. Both comparisons are false for NaN, so NaN is accepted as an absorption coefficient. | A catalog entry `.nan` in YAML, or the string `"nan"`, which `float()` turns into NaN. | Every coefficient in the catalog is a number in [0, 1]. Later, a NaN coefficient makes the total absorption and RT60 NaN, and because `NaN <= 0` is false, `rt60_sab` does not refuse it either. | not executed; follows from Python's comparison semantics on NaN | Materials.NaNPassesRangeCheckAsWritten | Materials.CheckEntryKeepsOnlyCoefficients |
