/** The hourly volume weights of api/crates/analytics/src/execution.rs: update_volume keeps every
    weight between 1/24 and 2, so a VWAP order always has comparable weights to be sliced by. Sums of volumes
    are not bounded to 64 bits here. */
module VolumeProfiles {
  import opened Types
  import opened AlgoPlans
  import opened MapSums

  const HOURS: nat := 24
  const KEPT: nat := 1000

  /** A reported volume and the hour of the day it was reported in. */
  datatype Report = Report(hour: nat, volume: u64)

  function InHour(rs: seq<Report>, hour: nat): seq<Report> {
    if rs == [] then []
    else
      var rest := InHour(rs[..|rs| - 1], hour);
      if rs[|rs| - 1].hour == hour then rest + [rs[|rs| - 1]] else rest
  }

  function VolumeOf(rs: seq<Report>): nat {
    if rs == [] then 0 else VolumeOf(rs[..|rs| - 1]) + rs[|rs| - 1].volume
  }

  function Clamp(x: real, low: real, high: real): real {
    if x < low then low else if x > high then high else x
  }

  function Average(volume: nat, count: nat): real {
    if count == 0 then 0.0 else volume as real / count as real
  }

  function Ratio(a: real, b: real): real {
    if b == 0.0 then 0.0 else a / b
  }

  /** The average of the hour over the average of all, kept between one half and two. */
  function WeightOf(rs: seq<Report>, hour: nat, old_: real): real {
    var own := InHour(rs, hour);
    if |own| == 0 || VolumeOf(rs) == 0 then old_
    else
      Clamp(Ratio(Average(VolumeOf(own), |own|), Average(VolumeOf(rs), |rs|)), 0.5, 2.0)
  }

  /** With reports in the hour and any volume at all, the weight is the ratio of the average of the hour to the
      average of
      all reports, or the bound of 1/2 or 2 that it would pass; in any other hour it stays as it was. */
  lemma WeightIs(rs: seq<Report>, hour: nat, before: real, a: real, b: real)
    requires a == Average(VolumeOf(InHour(rs, hour)), |InHour(rs, hour)|) && b == Average(VolumeOf(rs), |rs|)
    ensures var w := WeightOf(rs, hour, before);
            if InHour(rs, hour) == [] || VolumeOf(rs) == 0 then w == before
            else
              && 0.5 <= w <= 2.0 && (b <= 2.0 * a <= 4.0 * b ==> w * b == a)
              && (2.0 * a < b ==> w == 0.5) && (a > 2.0 * b ==> w == 2.0)
  {
    AveragePositive(VolumeOf(rs), |rs|);
    hide Average, Ratio;
    if VolumeOf(rs) > 0 && rs != [] { RatioIs(a, b); }
  }

  lemma AverageIs(volume: nat, count: nat)
    requires count > 0
    ensures Average(volume, count) * count as real == volume as real
  {
  }

  lemma AveragePositive(volume: nat, count: nat)
    ensures volume > 0 && count > 0 ==> Average(volume, count) > 0.0
  {
  }

  lemma RatioIs(a: real, b: real)
    requires b > 0.0
    ensures Ratio(a, b) * b == a
    ensures (2.0 * a < b <==> Ratio(a, b) < 0.5) && (a > 2.0 * b <==> Ratio(a, b) > 2.0)
  {
    var r := Ratio(a, b);
    assert r * b == a;
    hide Ratio;
    RatioOrder(r, 0.5, b);
    RatioOrder(2.0, r, b);
  }

  lemma RatioOrder(r: real, s: real, b: real)
    requires b > 0.0
    ensures r < s <==> r * b < s * b
  {
    assert (s - r) * b == s * b - r * b;
    if r < s { assert (s - r) * b > 0.0; }
    if s < r { assert (r - s) * b > 0.0; }
  }

  ghost predicate Moderate(xs: seq<real>) {
    forall i :: 0 <= i < |xs| ==> 1.0 / 24.0 <= xs[i] <= 2.0
  }

  ghost predicate HoursOk(rs: seq<Report>) {
    forall i :: 0 <= i < |rs| ==> rs[i].hour < HOURS
  }

  lemma {:induction false} SumUpdated(xs: seq<nat>, i: nat, v: nat)
    requires i < |xs|
    ensures SumNat(xs[i := v]) == SumNat(xs) - xs[i] + v
    ensures xs[i] <= SumNat(xs)
  {
    if i == 0 {
      assert xs[i := v][1..] == xs[1..];
    } else {
      assert xs[i := v][1..] == xs[1..][i - 1 := v];
      SumUpdated(xs[1..], i - 1, v);
    }
  }

  lemma {:induction false} SumZeros(xs: seq<nat>)
    requires forall i :: 0 <= i < |xs| ==> xs[i] == 0
    ensures SumNat(xs) == 0
  {
    if xs != [] {
      SumZeros(xs[1..]);
    }
  }

  // ----- the two loops of update_volume

  ghost predicate Tallied(totals: seq<nat>, counts: seq<nat>, rs: seq<Report>) {
    && |totals| == |counts| == HOURS
    && (forall h :: 0 <= h < HOURS ==> totals[h] == VolumeOf(InHour(rs, h)) && counts[h] == |InHour(rs, h)|)
    && SumNat(totals) == VolumeOf(rs) && SumNat(counts) == |rs|
  }

  lemma TallyStep(totals: seq<nat>, counts: seq<nat>, rs: seq<Report>, r: Report)
    requires Tallied(totals, counts, rs) && r.hour < HOURS
    ensures Tallied(totals[r.hour := totals[r.hour] + r.volume], counts[r.hour := counts[r.hour] + 1], rs + [r])
  {
    hide InHour, VolumeOf, SumNat;
    OneMore(rs, r);
    SumUpdated(totals, r.hour, totals[r.hour] + r.volume);
    SumUpdated(counts, r.hour, counts[r.hour] + 1);
    forall h | 0 <= h < HOURS
      ensures totals[r.hour := totals[r.hour] + r.volume][h] == VolumeOf(InHour(rs + [r], h))
      ensures counts[r.hour := counts[r.hour] + 1][h] == |InHour(rs + [r], h)|
    {
      assert totals[h] == VolumeOf(InHour(rs, h)) && counts[h] == |InHour(rs, h)|;
    }
  }

  /** Totals and counts by hour. */
  method Tally(rs: seq<Report>) returns (totals: seq<nat>, counts: seq<nat>)
    requires HoursOk(rs)
    ensures Tallied(totals, counts, rs)
  {
    hide Tallied;
    totals, counts := seq(HOURS, _ => 0), seq(HOURS, _ => 0);
    NothingTallied(totals);
    for i := 0 to |rs|
      invariant |totals| == |counts| == HOURS && Tallied(totals, counts, rs[..i])
    {
      TallyStep(totals, counts, rs[..i], rs[i]);
      assert rs[..i + 1] == rs[..i] + [rs[i]];
      totals := totals[rs[i].hour := totals[rs[i].hour] + rs[i].volume];
      counts := counts[rs[i].hour := counts[rs[i].hour] + 1];
    }
    assert rs[..|rs|] == rs;
  }

  lemma NothingTallied(zeros: seq<nat>)
    requires |zeros| == HOURS && forall h :: 0 <= h < HOURS ==> zeros[h] == 0
    ensures Tallied(zeros, zeros, [])
  {
    SumZeros(zeros);
    hide SumNat;
  }

  method Reweigh(rs: seq<Report>, before: seq<real>, totals: seq<nat>, counts: seq<nat>) returns (after: seq<real>)
    requires Tallied(totals, counts, rs) && |before| == HOURS && Moderate(before)
    ensures |after| == HOURS && Moderate(after)
    ensures forall h :: 0 <= h < HOURS ==> after[h] == WeightOf(rs, h, before[h])
  {
    after := before;
    for h := 0 to HOURS
      invariant |after| == HOURS && Moderate(after)
      invariant forall k :: 0 <= k < h ==> after[k] == WeightOf(rs, k, before[k])
      invariant forall k :: h <= k < HOURS ==> after[k] == before[k]
    {
      var w := HourWeight(rs, h, before[h], totals, counts);
      hide Tallied, WeightOf;
      after := after[h := w];
    }
  }

  method HourWeight(rs: seq<Report>, h: nat, before: real, totals: seq<nat>, counts: seq<nat>) returns (w: real)
    requires Tallied(totals, counts, rs) && h < HOURS && 1.0 / 24.0 <= before <= 2.0
    ensures w == WeightOf(rs, h, before) && 1.0 / 24.0 <= w <= 2.0
  {
    w := before;
    if counts[h] > 0 {
      SumUpdated(counts, h, 0);
      var all := if SumNat(counts) > 1 then SumNat(counts) else 1;
      var avg, totalAvg := totals[h] as real / counts[h] as real, SumNat(totals) as real / all as real;
      AverageZero(SumNat(totals), all);
      if totalAvg > 0.0 {
        w := Clamp(avg / totalAvg, 0.5, 2.0);
      }
    }
  }

  // ----- the profile

  class VolumeProfile {
    var hourWeights: seq<real>
    var recent: seq<Report>

    ghost predicate Valid()
      reads this
    {
      && |hourWeights| == HOURS && Moderate(hourWeights)
      && |recent| <= KEPT && HoursOk(recent)
    }

    constructor ()
      ensures Valid() && recent == [] && forall h :: 0 <= h < HOURS ==> hourWeights[h] == 1.0 / 24.0
    {
      hourWeights := seq(HOURS, _ => 1.0 / 24.0);
      recent := [];
    }

    /** Adds a report, forgets the oldest beyond 1000, and recomputes the weights of the hours reported. */
    method UpdateVolume(hour: nat, volume: u64)
      requires Valid() && hour < HOURS
      modifies this
      ensures Valid()
      ensures var all := old(recent) + [Report(hour, volume)];
              recent == if |all| > 1000 then all[1..] else all
      ensures forall h :: 0 <= h < HOURS ==> hourWeights[h] == WeightOf(recent, h, old(hourWeights)[h])
    {
      recent := recent + [Report(hour, volume)];
      if |recent| > KEPT {
        recent := recent[1..];
      }
      var totals, counts := Tally(recent);
      hourWeights := Reweigh(recent, hourWeights, totals, counts);
    }
  }

  lemma OneMore(rs: seq<Report>, r: Report)
    ensures VolumeOf(rs + [r]) == VolumeOf(rs) + r.volume
    ensures InHour(rs + [r], r.hour) == InHour(rs, r.hour) + [r]
    ensures VolumeOf(InHour(rs + [r], r.hour)) == VolumeOf(InHour(rs, r.hour)) + r.volume
    ensures forall h :: h != r.hour ==> InHour(rs + [r], h) == InHour(rs, h)
  {
    assert (rs + [r])[..|rs|] == rs;
    var own := InHour(rs, r.hour);
    assert (own + [r])[..|own|] == own;
  }

  lemma AverageZero(total: nat, count: nat)
    requires count > 0
    ensures total as real / count as real > 0.0 <==> total > 0
  {
  }

  /** The weights a VWAP order is sliced by: those of its hours, or equal ones without a profile. */
  function Weights(profile: Option<seq<real>>, hour: nat, slices: u32): (r: seq<real>)
    requires profile.Some? ==> |profile.value| == HOURS && Moderate(profile.value)
    ensures |r| == slices && Comparable(r)
    ensures forall i :: 0 <= i < slices ==>
              r[i] == if profile.Some? then profile.value[(hour + i) % 24] else 1.0 / slices as real
  {
    if profile.Some? then seq(slices, i requires 0 <= i < slices => profile.value[(hour + i) % HOURS])
    else seq(slices, i requires 0 <= i < slices => 1.0 / slices as real)
  }
}
