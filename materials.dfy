/**
 * The materials store: validation of the loaded configuration into a catalog
 * of absorption coefficients, and the sorted list of material names.
 */
module Materials {
  import opened Wrappers
  import opened Errors
  import opened Dicts
  import opened Documents
  import opened Lexicographic

  /** Material name to absorption coefficient, in the configuration's order. */
  type Catalog = Dict<real>

  /** The closed interval every absorption coefficient must lie in. */
  predicate InUnitRange(c: real) {
    0.0 <= c <= 1.0
  }

  /** A configuration value the loader keeps: float() gives a finite value in [0, 1]. */
  predicate Acceptable(v: Node) {
    ToFloat(v).Some? && ToFloat(v).value.Finite? && InUnitRange(ToFloat(v).value.x)
  }

  /** Python's `f < 0` on a float; every comparison with NaN is false. */
  predicate BelowZero(f: Double) {
    match f
    case Finite(x) => x < 0.0
    case Infinity(negative) => negative
    case NaN => false
  }

  /** Python's `f > 1` on a float; every comparison with NaN is false. */
  predicate AboveOne(f: Double) {
    match f
    case Finite(x) => x > 1.0
    case Infinity(negative) => !negative
    case NaN => false
  }

  /** One pass of the validation loop as the source writes it: convert with float(), then `c < 0 or c > 1`. */
  function CheckEntryAsWritten(name: string, value: Node): (r: Result<Double, Error>)
    ensures r.Success? ==> ToFloat(value) == Some(r.value) && !r.value.Infinity?
    ensures r.Success? && r.value.Finite? ==> InUnitRange(r.value.x)
    ensures r.Failure? ==> (r.error == ConversionError(name) <==> ToFloat(value).None?)
  {
    match ToFloat(value)
    case None => Failure(ConversionError(name))
    case Some(f) => if BelowZero(f) || AboveOne(f) then Failure(RangeError(name, f)) else Success(f)
  }

  /** NaN is neither below 0 nor above 1, so the check as written lets it into the catalog. */
  lemma NaNPassesRangeCheckAsWritten()
    ensures CheckEntryAsWritten("x", Float(NaN)) == Success(NaN)
    ensures CheckEntryAsWritten("x", Text("nan")) == Success(NaN)
    ensures !Acceptable(Float(NaN))
  {
    ToFloatOfNaNText();
  }

  /** One pass of the validation loop with NaN refused as well: convert with float(), then check the range. */
  function CheckEntry(name: string, value: Node): (r: Result<real, Error>)
    ensures r.Success? ==> ToFloat(value) == Some(Finite(r.value)) && InUnitRange(r.value)
    ensures r.Failure? ==> (r.error == ConversionError(name) <==> ToFloat(value).None?)
    ensures r.Failure? && ToFloat(value).Some? ==> r.error == RangeError(name, ToFloat(value).value)
  {
    match ToFloat(value)
    case None => Failure(ConversionError(name))
    case Some(f) => if f.NaN? || BelowZero(f) || AboveOne(f) then Failure(RangeError(name, f)) else Success(f.x)
  }

  /**
   * The corrected check keeps exactly the finite values in [0, 1], and it
   * differs from the check as written only on NaN.
   */
  lemma CheckEntryKeepsOnlyCoefficients(name: string, value: Node)
    ensures CheckEntry(name, value).Success? <==> Acceptable(value)
    ensures CheckEntry(name, value).Success? ==>
      ToFloat(value) == Some(Finite(CheckEntry(name, value).value)) && InUnitRange(CheckEntry(name, value).value)
    ensures ToFloat(value) != Some(NaN) ==> (CheckEntryAsWritten(name, value) ==
      match CheckEntry(name, value)
      case Success(c) => Success(Finite(c))
      case Failure(e) => Failure(e))
  {
  }

  /**
   * The loop over the configuration's entries in iteration order: the first
   * entry that fails ends it with that entry's error.
   */
  function ConvertAll(names: seq<string>, entries: map<string, Node>): (r: Result<map<string, real>, Error>)
    requires forall i :: 0 <= i < |names| ==> names[i] in entries
    ensures r.Success? ==> r.value.Keys == set k | k in names
    decreases |names|
  {
    if names == [] then Success(map[])
    else
      var last := names[|names| - 1];
      match ConvertAll(names[..|names| - 1], entries)
      case Failure(e) => Failure(e)
      case Success(done) =>
        assert names == names[..|names| - 1] + [last];
        match CheckEntry(last, entries[last])
        case Failure(e) => Failure(e)
        case Success(c) => Success(done[last := c])
  }

  /** What loading a parsed configuration yields. */
  function Load(doc: Node): (r: Result<Catalog, Error>)
    ensures !doc.Mapping? ==> r == Failure(FormatError)
    ensures r.Success? ==> doc.Mapping? && r.value.order == doc.d.order && r.value.at.Keys == doc.d.at.Keys
  {
    match doc
    case Mapping(d) =>
      (match ConvertAll(d.order, d.at)
       case Failure(e) => Failure(e)
       case Success(coeffs) => Success(Entries(d.order, coeffs)))
    case _ => Failure(FormatError)
  }

  /** Once a prefix of the entries fails, the whole loop fails with the same error. */
  lemma {:induction false} ConvertAllFailurePersists(names: seq<string>, k: nat, entries: map<string, Node>)
    requires k <= |names|
    requires forall i :: 0 <= i < |names| ==> names[i] in entries
    requires ConvertAll(names[..k], entries).Failure?
    ensures ConvertAll(names, entries) == ConvertAll(names[..k], entries)
    decreases |names|
  {
    if k < |names| {
      var init := names[..|names| - 1];
      assert init[..k] == names[..k];
      ConvertAllFailurePersists(init, k, entries);
    } else {
      assert names[..k] == names;
    }
  }

  /**
   * The loader: rejects a document that is not a mapping, then converts every
   * value in place, in iteration order, stopping at the first value that does
   * not convert or is not a number in [0, 1] (NaN included).
   */
  method LoadMaterials(doc: Node) returns (r: Result<Catalog, Error>)
    ensures r == Load(doc)
  {
    if !doc.Mapping? {
      return Failure(FormatError);
    }
    var data := doc.d;
    var coeffs: map<string, real> := map[];
    for i := 0 to |data.order|
      invariant ConvertAll(data.order[..i], data.at) == Success(coeffs)
    {
      var name := data.order[i];
      ConvertAllExtend(data.order, i, data.at);
      var converted := ToFloat(data.at[name]);
      if converted.None? {
        ConvertAllFailurePersists(data.order, i + 1, data.at);
        return Failure(ConversionError(name));
      }
      var f := converted.value;
      if f.NaN? || BelowZero(f) || AboveOne(f) {
        ConvertAllFailurePersists(data.order, i + 1, data.at);
        return Failure(RangeError(name, f));
      }
      coeffs := coeffs[name := f.x];
    }
    assert data.order[..|data.order|] == data.order;
    return Success(Entries(data.order, coeffs));
  }

  /** One more iteration of the loop: the entry at position i is checked after those before it. */
  lemma ConvertAllExtend(names: seq<string>, i: nat, entries: map<string, Node>)
    requires i < |names|
    requires forall j :: 0 <= j < |names| ==> names[j] in entries
    ensures ConvertAll(names[..i + 1], entries) ==
      match ConvertAll(names[..i], entries)
      case Failure(e) => Failure(e)
      case Success(done) =>
        match CheckEntry(names[i], entries[names[i]])
        case Failure(e) => Failure(e)
        case Success(c) => Success(done[names[i] := c])
  {
    assert names[..i + 1][..i] == names[..i];
  }

  lemma {:induction false} ConvertAllSucceedsIff(names: seq<string>, entries: map<string, Node>)
    requires forall i :: 0 <= i < |names| ==> names[i] in entries
    ensures ConvertAll(names, entries).Success? <==> forall i :: 0 <= i < |names| ==> Acceptable(entries[names[i]])
    decreases |names|
  {
    if names != [] {
      var init := names[..|names| - 1];
      ConvertAllSucceedsIff(init, entries);
      assert forall i :: 0 <= i < |init| ==> init[i] == names[i];
    }
  }

  lemma {:induction false} ConvertAllValues(names: seq<string>, entries: map<string, Node>)
    requires forall i :: 0 <= i < |names| ==> names[i] in entries
    requires ConvertAll(names, entries).Success?
    ensures forall k :: k in ConvertAll(names, entries).value ==>
      k in entries && ToFloat(entries[k]) == Some(Finite(ConvertAll(names, entries).value[k])) && InUnitRange(ConvertAll(names, entries).value[k])
    decreases |names|
  {
    if names != [] {
      ConvertAllValues(names[..|names| - 1], entries);
    }
  }

  lemma {:induction false} ConvertAllFirstFailure(names: seq<string>, entries: map<string, Node>)
    requires forall i :: 0 <= i < |names| ==> names[i] in entries
    requires ConvertAll(names, entries).Failure?
    ensures exists i :: (0 <= i < |names|
      && CheckEntry(names[i], entries[names[i]]) == Failure(ConvertAll(names, entries).error)
      && forall j :: 0 <= j < i ==> CheckEntry(names[j], entries[names[j]]).Success?)
    decreases |names|
  {
    var init := names[..|names| - 1];
    if ConvertAll(init, entries).Failure? {
      ConvertAllFirstFailure(init, entries);
      var i :| 0 <= i < |init|
        && CheckEntry(init[i], entries[init[i]]) == Failure(ConvertAll(init, entries).error)
        && forall j :: 0 <= j < i ==> CheckEntry(init[j], entries[init[j]]).Success?;
      assert names[i] == init[i];
      assert forall j :: 0 <= j < i ==> names[j] == init[j];
    } else {
      ConvertAllSucceedsIff(init, entries);
      var i := |names| - 1;
      assert forall j :: 0 <= j < i ==> names[j] == init[j];
    }
  }

  /** Anything but a mapping (null, a scalar, a list) is refused with a format error. */
  lemma LoadRejectsNonMapping(doc: Node)
    requires !doc.Mapping?
    ensures Load(doc) == Failure(FormatError)
  {
  }

  /** Loading succeeds exactly when the document is a mapping all of whose values are acceptable. */
  lemma LoadSucceedsIff(doc: Node)
    ensures Load(doc).Success? <==> doc.Mapping? && forall k :: k in doc.d.at ==> Acceptable(doc.d.at[k])
  {
    if doc.Mapping? {
      ConvertAllSucceedsIff(doc.d.order, doc.d.at);
    }
  }

  /**
   * A loaded catalog has the configuration's keys in the configuration's
   * order, and each coefficient is float() of the configured value and in [0, 1].
   */
  lemma LoadedCatalog(doc: Node)
    requires Load(doc).Success?
    ensures doc.Mapping?
    ensures Load(doc).value.order == doc.d.order
    ensures Load(doc).value.at.Keys == doc.d.at.Keys
    ensures forall k :: k in Load(doc).value.at ==>
      ToFloat(doc.d.at[k]) == Some(Finite(Load(doc).value.at[k])) && InUnitRange(Load(doc).value.at[k])
  {
    ConvertAllValues(doc.d.order, doc.d.at);
  }

  /**
   * A failing load of a mapping reports the first entry, in iteration order,
   * whose value does not convert (a conversion error) or lies outside [0, 1]
   * (a range error carrying the converted value).
   */
  lemma LoadReportsFirstBadEntry(doc: Node)
    requires doc.Mapping? && Load(doc).Failure?
    ensures exists i :: (0 <= i < |doc.d.order|
      && !Acceptable(doc.d.at[doc.d.order[i]])
      && (forall j :: 0 <= j < i ==> Acceptable(doc.d.at[doc.d.order[j]]))
      && Load(doc).error == CheckEntry(doc.d.order[i], doc.d.at[doc.d.order[i]]).error)
    ensures match Load(doc).error
      case ConversionError(name) => name in doc.d.at && ToFloat(doc.d.at[name]) == None
      case RangeError(name, f) => name in doc.d.at && ToFloat(doc.d.at[name]) == Some(f) && !(f.Finite? && InUnitRange(f.x))
      case _ => false
  {
    ConvertAllFirstFailure(doc.d.order, doc.d.at);
  }

  /** The material names in ascending lexicographic order. */
  function ListMaterials<V>(materials: Dict<V>): (names: seq<string>)
    ensures StrictlySorted(names)
    ensures Distinct(names)
    ensures forall k :: k in names <==> k in materials.at
    ensures multiset(names) == multiset(materials.order)
  {
    var names := Sort(materials.order);
    SortedIsDistinct(names);
    assert forall k :: k in names <==> k in multiset(materials.order);
    names
  }

  /** Any strictly ascending list of exactly the catalog's names is what ListMaterials returns. */
  lemma ListMaterialsUnique<V>(materials: Dict<V>, names: seq<string>)
    requires StrictlySorted(names)
    requires forall k :: k in names <==> k in materials.at
    ensures ListMaterials(materials) == names
  {
    SortedUnique(ListMaterials(materials), names);
  }

  lemma ListMaterialsExample()
    ensures ListMaterials(Entries(["b", "a"], map["b" := 0.1, "a" := 0.2])) == ["a", "b"]
  {
    var m: Dict<real> := Entries(["b", "a"], map["b" := 0.1, "a" := 0.2]);
    assert Less("a", "b");
    ListMaterialsUnique(m, ["a", "b"]);
  }

  /** A configuration {carpet: 0.3} loads to the catalog {carpet: 0.3}. */
  lemma LoadKeepsGoodEntry()
    ensures Load(Mapping(Entries(["carpet"], map["carpet" := Float(Finite(0.3))])))
      == Success(Entries(["carpet"], map["carpet" := 0.3]))
  {
    assert ["carpet"][..0] == [];
  }

  /** The bounds are inclusive: coefficients of exactly 0 and exactly 1 are kept. */
  lemma LoadAcceptsBounds()
    ensures Load(Mapping(Entries(["low", "high"], map["low" := Int(0), "high" := Float(Finite(1.0))])))
      == Success(Entries(["low", "high"], map["low" := 0.0, "high" := 1.0]))
  {
    assert ["low", "high"][..1] == ["low"];
    assert ["low"][..0] == [];
  }

  /** Coefficients above 1 or below 0 are refused with a range error. */
  lemma LoadRefusesOutOfRange()
    ensures Load(Mapping(Entries(["bad"], map["bad" := Float(Finite(1.5))]))) == Failure(RangeError("bad", Finite(1.5)))
    ensures Load(Mapping(Entries(["bad"], map["bad" := Float(Finite(-0.1))]))) == Failure(RangeError("bad", Finite(-0.1)))
    ensures Load(Mapping(Entries(["bad"], map["bad" := Float(Infinity(false))]))) == Failure(RangeError("bad", Infinity(false)))
    ensures Load(Mapping(Entries(["bad"], map["bad" := Float(NaN)]))) == Failure(RangeError("bad", NaN))
  {
    assert ["bad"][..0] == [];
  }

  /** A value float() cannot convert is refused with a conversion error. */
  lemma LoadRefusesNonNumber()
    ensures Load(Mapping(Entries(["bad"], map["bad" := Text("x")]))) == Failure(ConversionError("bad"))
    ensures Load(Mapping(Entries(["bad"], map["bad" := Null]))) == Failure(ConversionError("bad"))
  {
    ToFloatOfNonNumericText();
    assert ["bad"][..0] == [];
  }
}
