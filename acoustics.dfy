/** Sabine's reverberation-time estimate for a single frequency band. */
module Acoustics {
  import opened Wrappers
  import opened Errors

  /** Sabine's constant in metric units (seconds per metre). */
  const SabineConstant: real := 0.161

  /**
   * RT60 in seconds from the room volume and the total absorption area.
   * Refuses a non-positive absorption area and no other input: the volume
   * is not checked.
   */
  function Rt60Sabine(volume: real, absorptionArea: real): (r: Result<real, Error>)
    ensures r.Failure? <==> absorptionArea <= 0.0
    ensures r.Failure? ==> r.error == DomainError(absorptionArea)
    ensures r.Success? ==> r.value * absorptionArea == SabineConstant * volume
  {
    if absorptionArea <= 0.0 then Failure(DomainError(absorptionArea))
    else Success(SabineConstant * volume / absorptionArea)
  }

  /** A real room (positive volume) with positive absorption reverberates for a positive time. */
  lemma Rt60Positive(volume: real, absorptionArea: real)
    requires volume > 0.0 && absorptionArea > 0.0
    ensures Rt60Sabine(volume, absorptionArea).Success?
    ensures Rt60Sabine(volume, absorptionArea).value > 0.0
  {
  }

  /** More absorption in the same room means a shorter reverberation time. */
  lemma Rt60FallsWithAbsorption(volume: real, a1: real, a2: real)
    requires volume > 0.0 && 0.0 < a1 < a2
    ensures Rt60Sabine(volume, a2).value < Rt60Sabine(volume, a1).value
  {
    var t1, t2 := Rt60Sabine(volume, a1).value, Rt60Sabine(volume, a2).value;
    assert t1 * a1 == t2 * a2;
    assert t2 > 0.0;
    assert t2 * a1 < t2 * a2;
    assert (t1 - t2) * a1 > 0.0;
  }

  /** With the same absorption, a larger room reverberates longer, in proportion to its volume. */
  lemma Rt60ProportionalToVolume(v1: real, v2: real, absorptionArea: real)
    requires absorptionArea > 0.0
    ensures Rt60Sabine(v2, absorptionArea).value * v1 == Rt60Sabine(v1, absorptionArea).value * v2
    ensures v1 < v2 ==> Rt60Sabine(v1, absorptionArea).value < Rt60Sabine(v2, absorptionArea).value
  {
    var t1, t2 := Rt60Sabine(v1, absorptionArea).value, Rt60Sabine(v2, absorptionArea).value;
    assert t1 * absorptionArea == SabineConstant * v1;
    assert t2 * absorptionArea == SabineConstant * v2;
    assert (t2 * v1) * absorptionArea == (t1 * v2) * absorptionArea;
    if v1 < v2 {
      assert t1 * absorptionArea < t2 * absorptionArea;
    }
  }

  /** For a positive absorption area the result is exactly 0.161 * V / A, for any volume. */
  lemma Rt60IsSabineFormula(volume: real, absorptionArea: real)
    requires absorptionArea > 0.0
    ensures Rt60Sabine(volume, absorptionArea) == Success(0.161 * volume / absorptionArea)
  {
  }

  lemma Rt60Examples()
    ensures Rt60Sabine(49.0, 0.0) == Failure(DomainError(0.0))
    ensures Rt60Sabine(49.0, -1.0) == Failure(DomainError(-1.0))
    ensures Rt60Sabine(0.0, 1.0) == Success(0.0)
    ensures Rt60Sabine(-10.0, 1.61) == Success(-1.0)
  {
  }
}
