/**
 * Disc capacity as the packer's command line resolves it: a named media
 * profile, or a custom amount in a unit, or the single-layer DVD default;
 * and the safety reserve taken as a percentage of that capacity.
 *
 * The command line's floating-point numbers are modelled as exact `real`s;
 * Python's `int(x)` on them truncates toward zero.
 */
module Capacity {
  import opened Wrappers

  /** Nominal capacities in bytes of the media profiles. */
  const MediaProfiles: map<string, int> := map[
    "dvd5" := 4_700_372_992,
    "dvd9" := 8_540_000_000,
    "cd700" := 700 * 1_000_000,
    "bdr25" := 25 * 1_000_000_000,
    "bdr50" := 50 * 1_000_000_000
  ]

  /** Bytes per unit accepted with a custom capacity. */
  const UnitFactors: map<string, int> := map[
    "B" := 1,
    "KB" := 1_000,
    "KiB" := 1024,
    "MB" := 1_000_000,
    "MiB" := 1024 * 1024,
    "GB" := 1_000_000_000,
    "GiB" := 1024 * 1024 * 1024
  ]

  const DefaultProfile: string := "dvd5"

  /** A lookup that raises `KeyError` in the source. */
  datatype CapacityError = UnknownProfile(profile: string) | UnknownUnit(unit: string)

  /** Python's `int(x)` on a float: the integer part, rounding toward zero. */
  function TruncateTowardZero(x: real): (n: int)
    ensures x >= 0.0 ==> 0 <= n && n as real <= x < n as real + 1.0
    ensures x < 0.0 ==> n <= 0 && n as real - 1.0 < x <= n as real
  {
    if x >= 0.0 then x.Floor else -((-x).Floor)
  }

  /** A profile string counts only when it is present and non-empty. */
  predicate Given(profile: Option<string>) {
    profile.Some? && profile.value != ""
  }

  /**
   * The capacity in bytes: the profile if one is given, otherwise the
   * custom capacity times its unit factor, otherwise the default profile.
   */
  function ResolveCapacity(profile: Option<string>, capacity: Option<real>,
                           unit: string): (r: Result<int, CapacityError>)
    ensures Given(profile) ==>
      (r.Ok? <==> profile.value in MediaProfiles) &&
      (r.Ok? ==> r.value == MediaProfiles[profile.value]) &&
      (r.Err? ==> r.error == UnknownProfile(profile.value))
    ensures !Given(profile) && capacity.Some? ==>
      (r.Ok? <==> unit in UnitFactors) &&
      (r.Err? ==> r.error == UnknownUnit(unit))
    ensures !Given(profile) && capacity.Some? && r.Ok? ==>
      var bytes := capacity.value * UnitFactors[unit] as real;
      (bytes >= 0.0 ==> r.value as real <= bytes < r.value as real + 1.0) &&
      (bytes < 0.0 ==> r.value as real - 1.0 < bytes <= r.value as real)
    ensures !Given(profile) && capacity.None? ==> r == Ok(4_700_372_992)
  {
    if Given(profile) then
      if profile.value in MediaProfiles then Ok(MediaProfiles[profile.value])
      else Err(UnknownProfile(profile.value))
    else if capacity.Some? then
      if unit in UnitFactors then
        Ok(TruncateTowardZero(capacity.value * UnitFactors[unit] as real))
      else Err(UnknownUnit(unit))
    else
      Ok(MediaProfiles[DefaultProfile])
  }

  /** A capacity resolved from a listed profile or unit never fails. */
  lemma {:induction false} ListedChoicesResolve(profile: Option<string>, capacity: Option<real>,
                                                unit: string)
    requires Given(profile) ==> profile.value in MediaProfiles
    requires !Given(profile) && capacity.Some? ==> unit in UnitFactors
    ensures ResolveCapacity(profile, capacity, unit).Ok?
  {
  }

  /** A given profile wins over any custom capacity and unit. */
  lemma {:induction false} ProfileTakesPrecedence(profile: string, capacity: Option<real>,
                                                  unit: string, otherCapacity: Option<real>,
                                                  otherUnit: string)
    requires profile != ""
    ensures ResolveCapacity(Some(profile), capacity, unit)
         == ResolveCapacity(Some(profile), otherCapacity, otherUnit)
  {
  }

  /** An empty profile string behaves like no profile at all. */
  lemma {:induction false} EmptyProfileIsAbsent(capacity: Option<real>, unit: string)
    ensures ResolveCapacity(Some(""), capacity, unit) == ResolveCapacity(None, capacity, unit)
  {
  }

  /** Every profile holds at least the 700 MB of a CD. */
  lemma {:induction false} ProfilesHoldAtLeastACd(name: string)
    requires name in MediaProfiles
    ensures MediaProfiles[name] >= 700_000_000
  {
  }

  /** A whole number of a unit resolves to exactly that many bytes. */
  lemma {:induction false} WholeCustomCapacityIsExact(amount: nat, unit: string)
    requires unit in UnitFactors
    ensures ResolveCapacity(None, Some(amount as real), unit) == Ok(amount * UnitFactors[unit])
  {
    var f := UnitFactors[unit];
    assert f in {1, 1_000, 1024, 1_000_000, 1_048_576, 1_000_000_000, 1_073_741_824};
    CastOfScaled(amount, f);
  }

  lemma {:induction false} CastOfScaled(amount: nat, f: int)
    requires f in {1, 1_000, 1024, 1_000_000, 1_048_576, 1_000_000_000, 1_073_741_824}
    ensures amount as real * f as real == (amount * f) as real
  {
    if f == 1 {
      assert amount as real * 1.0 == (amount * 1) as real;
    } else if f == 1_000 {
      assert amount as real * 1000.0 == (amount * 1000) as real;
    } else if f == 1024 {
      assert amount as real * 1024.0 == (amount * 1024) as real;
    } else if f == 1_000_000 {
      assert amount as real * 1000000.0 == (amount * 1000000) as real;
    } else if f == 1_048_576 {
      assert amount as real * 1048576.0 == (amount * 1048576) as real;
    } else if f == 1_000_000_000 {
      assert amount as real * 1000000000.0 == (amount * 1000000000) as real;
    } else {
      assert amount as real * 1073741824.0 == (amount * 1073741824) as real;
    }
  }

  /**
   * `int(capacity * (reserve / 100.0)) if reserve else 0`: the bytes held
   * back from every bin.
   */
  function ReserveBytes(capacity: int, reservePercent: real): (r: int)
    ensures capacity >= 0 && 0.0 <= reservePercent <= 100.0 ==> 0 <= r <= capacity
    ensures reservePercent == 0.0 ==> r == 0
    ensures capacity >= 0 && 0.0 <= reservePercent ==>
              r as real <= capacity as real * (reservePercent / 100.0) < r as real + 1.0
  {
    if reservePercent == 0.0 then 0
    else
      TruncatedReserve(capacity, reservePercent);
      TruncateTowardZero(capacity as real * (reservePercent / 100.0))
  }

  lemma {:induction false} TruncatedReserve(capacity: int, reservePercent: real)
    ensures var x := capacity as real * (reservePercent / 100.0);
      (capacity >= 0 && 0.0 <= reservePercent <= 100.0 ==> 0 <= TruncateTowardZero(x) <= capacity) &&
      (capacity >= 0 && 0.0 <= reservePercent ==>
         TruncateTowardZero(x) as real <= x < TruncateTowardZero(x) as real + 1.0)
  {
    var x := capacity as real * (reservePercent / 100.0);
    ReserveWithinCapacity(capacity, reservePercent);
    ScaledNonNegative(capacity, reservePercent);
    TruncateWithin(x, capacity);
  }

  lemma {:induction false} ReserveWithinCapacity(capacity: int, reservePercent: real)
    ensures capacity >= 0 && 0.0 <= reservePercent <= 100.0 ==>
      0.0 <= capacity as real * (reservePercent / 100.0) <= capacity as real
  {
    if capacity >= 0 && 0.0 <= reservePercent <= 100.0 {
      var f := reservePercent / 100.0;
      assert 0.0 <= f <= 1.0;
      assert capacity as real * f <= capacity as real * 1.0;
    }
  }

  lemma {:induction false} TruncateWithin(x: real, bound: int)
    ensures 0.0 <= x <= bound as real ==> 0 <= TruncateTowardZero(x) <= bound
  {
  }

  lemma {:induction false} ScaledNonNegative(capacity: int, reservePercent: real)
    ensures capacity >= 0 && 0.0 <= reservePercent ==> 0.0 <= capacity as real * (reservePercent / 100.0)
  {
  }

  /** With the default 2% reserve a dvd5 bin holds 4,606,365,533 bytes. */
  lemma {:induction false} DefaultReserveOnDvd5()
    ensures ReserveBytes(4_700_372_992, 2.0) == 94_007_459
    ensures 4_700_372_992 - ReserveBytes(4_700_372_992, 2.0) == 4_606_365_533
  {
    var x := 4_700_372_992 as real * (2.0 / 100.0);
    assert x == 94_007_459.84;
  }
}
