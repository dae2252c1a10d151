/** Source-group power, split over components by fixed weights. */
module PowerIr {
  import opened Wrappers
  import opened RcNetwork
  import opened RcTheory

  /** One stretch of a trace, with one value for every source group. */
  datatype Interval = Interval(start: real, end: real, values: Vec)

  predicate WeightsOkRow(row: Vec, n: nat) {
    |row| == n && (forall c :: 0 <= c < n ==> row[c] >= 0.0) && SumTo(row, n) == 1.0
  }

  /** `weights[g][c]` is the share of group `g` that goes to component `c`; shares are nonnegative and sum to one. */
  ghost predicate WeightsOk(weights: seq<Vec>, n: nat) {
    forall g :: 0 <= g < |weights| ==> WeightsOkRow(weights[g], n)
  }

  ghost predicate IntervalsOk(intervals: seq<Interval>, groups: nat) {
    forall t :: 0 <= t < |intervals| ==> intervals[t].start < intervals[t].end && |intervals[t].values| == groups
  }

  // ---------------------------------------------------------------- the split

  /** Power of component `c` from the first `g` groups. */
  function ComponentPower(weights: seq<Vec>, values: Vec, g: nat, c: nat): real
    requires g <= |weights| && g <= |values| && forall k :: 0 <= k < |weights| ==> c < |weights[k]|
  {
    if g == 0 then 0.0 else ComponentPower(weights, values, g - 1, c) + Times(values[g - 1], weights[g - 1][c])
  }

  /** The same, summed over the first `n` components. */
  function SplitTotal(weights: seq<Vec>, values: Vec, g: nat, n: nat): real
    requires g <= |weights| && g <= |values| && forall k :: 0 <= k < |weights| ==> n <= |weights[k]|
  {
    if n == 0 then 0.0 else SplitTotal(weights, values, g, n - 1) + ComponentPower(weights, values, g, n - 1)
  }

  lemma {:induction false} SplitTotalGrows(weights: seq<Vec>, values: Vec, g: nat, n: nat)
    requires 0 < g <= |weights| && g <= |values| && forall k :: 0 <= k < |weights| ==> n <= |weights[k]|
    ensures SplitTotal(weights, values, g, n) == SplitTotal(weights, values, g - 1, n) + Times(values[g - 1], SumTo(weights[g - 1], n))
  {
    hide Times;
    if n == 0 {
      TimesZero(values[g - 1]);
    } else {
      SplitTotalGrows(weights, values, g, n - 1);
      TimesSum(values[g - 1], SumTo(weights[g - 1], n - 1), weights[g - 1][n - 1]);
    }
  }

  lemma {:induction false} NothingSplit(weights: seq<Vec>, values: Vec, n: nat)
    requires forall k :: 0 <= k < |weights| ==> n <= |weights[k]|
    ensures SplitTotal(weights, values, 0, n) == 0.0
  {
    if n > 0 {
      NothingSplit(weights, values, n - 1);
    }
  }

  lemma TimesOne(v: real)
    ensures Times(v, 1.0) == v
  {
  }

  /** Over all components the split gives back the power of the groups. */
  lemma {:induction false} SplitConserves(weights: seq<Vec>, values: Vec, g: nat, n: nat)
    requires WeightsOk(weights, n) && g <= |weights| && g <= |values|
    ensures forall k :: 0 <= k < |weights| ==> |weights[k]| == n
    ensures SplitTotal(weights, values, g, n) == SumTo(values, g)
  {
    hide Times;
    assert forall k :: 0 <= k < |weights| ==> WeightsOkRow(weights[k], n);
    if g == 0 {
      NothingSplit(weights, values, n);
    } else {
      SplitConserves(weights, values, g - 1, n);
      SplitTotalGrows(weights, values, g, n);
      TimesOne(values[g - 1]);
    }
  }

  /** More power in every group is no less power in every component. */
  lemma {:induction false} SplitMonotone(weights: seq<Vec>, values: Vec, caps: Vec, alpha: real, g: nat, n: nat, c: nat)
    requires WeightsOk(weights, n) && c < n && g <= |weights| && g <= |values| && g <= |caps|
    requires forall k :: 0 <= k < g ==> values[k] <= Times(alpha, caps[k])
    ensures forall k :: 0 <= k < |weights| ==> c < |weights[k]|
    ensures ComponentPower(weights, values, g, c) <= Times(alpha, ComponentPower(weights, caps, g, c))
  {
    assert forall k :: 0 <= k < |weights| ==> WeightsOkRow(weights[k], n);
    hide Times;
    if g == 0 {
      TimesZero(alpha);
    } else {
      SplitMonotone(weights, values, caps, alpha, g - 1, n, c);
      assert WeightsOkRow(weights[g - 1], n);
      ScaledTerm(values[g - 1], caps[g - 1], alpha, weights[g - 1][c]);
      TimesSum(alpha, ComponentPower(weights, caps, g - 1, c), Times(caps[g - 1], weights[g - 1][c]));
    }
  }

  lemma ScaledTerm(value: real, cap: real, alpha: real, weight: real)
    requires weight >= 0.0 && value <= Times(alpha, cap)
    ensures Times(value, weight) <= Times(alpha, Times(cap, weight))
  {
    assert (alpha * cap - value) * weight >= 0.0;
  }

  /** The components that only group `g` feeds. */
  ghost predicate Exclusive(weights: seq<Vec>, g: nat, c: nat)
    requires forall k :: 0 <= k < |weights| ==> c < |weights[k]|
  {
    forall h :: 0 <= h < |weights| && h != g ==> weights[h][c] == 0.0
  }

  lemma {:induction false} OwnGroupOnly(weights: seq<Vec>, values: Vec, groups: nat, g: nat, c: nat)
    requires groups <= |weights| && groups <= |values| && g < |weights| && g < |values|
    requires (forall k :: 0 <= k < |weights| ==> c < |weights[k]|) && Exclusive(weights, g, c)
    ensures ComponentPower(weights, values, groups, c) == if g < groups then Times(values[g], weights[g][c]) else 0.0
  {
    hide Times;
    if groups > 0 {
      OwnGroupOnly(weights, values, groups - 1, g, c);
      TimesZero(values[groups - 1]);
    }
  }

  /** Power of the first `k` components that are members. */
  function MemberPower(power: Vec, members: seq<bool>, k: nat): real
    requires k <= |power| == |members|
  {
    if k == 0 then 0.0 else MemberPower(power, members, k - 1) + if members[k - 1] then power[k - 1] else 0.0
  }

  /** If a group has its members to itself, they receive exactly its power. */
  lemma {:induction false} MembersReceive(weights: seq<Vec>, values: Vec, power: Vec, members: seq<bool>, n: nat, g: nat, k: nat)
    requires WeightsOk(weights, n) && |values| == |weights| && g < |weights| && |power| == |members| == n && k <= n
    requires forall c :: 0 <= c < n ==> PowerIs(weights, values, power, n, c)
    requires forall c :: 0 <= c < n ==> MemberOk(weights, members, n, g, c)
    ensures |weights[g]| == n && MemberPower(power, members, k) == Times(values[g], SumTo(weights[g], k))
    ensures k == n ==> MemberPower(power, members, k) == values[g]
  {
    assert WeightsOkRow(weights[g], n);
    if k == 0 {
      TimesZero(values[g]);
    } else {
      MembersReceive(weights, values, power, members, n, g, k - 1);
      var c := k - 1;
      assert PowerIs(weights, values, power, n, c) && MemberOk(weights, members, n, g, c);
      assert forall h :: 0 <= h < |weights| ==> WeightsOkRow(weights[h], n);
      hide Times;
      if members[c] {
        OwnGroupOnly(weights, values, |weights|, g, c);
      } else {
        TimesZero(values[g]);
      }
      TimesSum(values[g], SumTo(weights[g], c), weights[g][c]);
    }
    TimesOne(values[g]);
  }

  /** A member is fed by its group only; another component not at all by this group. */
  ghost predicate MemberOk(weights: seq<Vec>, members: seq<bool>, n: nat, g: nat, c: nat)
    requires WeightsOk(weights, n) && g < |weights| && |members| == n && c < n
  {
    assert forall k :: 0 <= k < |weights| ==> WeightsOkRow(weights[k], n);
    if members[c] then Exclusive(weights, g, c) else weights[g][c] == 0.0
  }

  // ---------------------------------------------------------------- energies

  function Duration(i: Interval): real {
    i.end - i.start
  }

  /** Energy of the groups over the first `t` intervals. */
  function SourceEnergy(intervals: seq<Interval>, t: nat): real
    requires t <= |intervals|
  {
    if t == 0 then 0.0
    else SourceEnergy(intervals, t - 1) + Times(Duration(intervals[t - 1]), SumTo(intervals[t - 1].values, |intervals[t - 1].values|))
  }

  /** Energy of component `c` over the first `t` intervals. */
  function ComponentEnergy(intervals: seq<Interval>, powers: seq<Vec>, t: nat, c: nat): real
    requires t <= |intervals| && t <= |powers| && forall k :: 0 <= k < t ==> c < |powers[k]|
  {
    if t == 0 then 0.0 else ComponentEnergy(intervals, powers, t - 1, c) + Times(Duration(intervals[t - 1]), powers[t - 1][c])
  }

  function EnergyTotal(intervals: seq<Interval>, powers: seq<Vec>, t: nat, n: nat): real
    requires t <= |intervals| && t <= |powers| && forall k :: 0 <= k < t ==> n <= |powers[k]|
  {
    if n == 0 then 0.0 else EnergyTotal(intervals, powers, t, n - 1) + ComponentEnergy(intervals, powers, t, n - 1)
  }

  ghost predicate IsSplit(weights: seq<Vec>, intervals: seq<Interval>, powers: seq<Vec>, n: nat)
    requires WeightsOk(weights, n)
  {
    && |powers| == |intervals| && IntervalsOk(intervals, |weights|)
    && (forall t :: 0 <= t < |powers| ==> |powers[t]| == n)
    && forall t, c :: 0 <= t < |powers| && 0 <= c < n ==> PowerIs(weights, intervals[t].values, powers[t], n, c)
  }

  ghost predicate PowerIs(weights: seq<Vec>, values: Vec, power: Vec, n: nat, c: nat)
    requires WeightsOk(weights, n) && c < n && |values| == |weights|
  {
    assert forall k :: 0 <= k < |weights| ==> WeightsOkRow(weights[k], n);
    |power| == n && power[c] == ComponentPower(weights, values, |weights|, c)
  }

  lemma {:induction false} EnergyTotalGrows(intervals: seq<Interval>, powers: seq<Vec>, t: nat, n: nat)
    requires 0 < t <= |intervals| && t <= |powers| && forall k :: 0 <= k < t ==> n <= |powers[k]|
    ensures EnergyTotal(intervals, powers, t, n) == EnergyTotal(intervals, powers, t - 1, n)
            + Times(Duration(intervals[t - 1]), SumTo(powers[t - 1], n))
  {
    hide Times;
    if n == 0 {
      TimesZero(Duration(intervals[t - 1]));
    } else {
      EnergyTotalGrows(intervals, powers, t, n - 1);
      TimesSum(Duration(intervals[t - 1]), SumTo(powers[t - 1], n - 1), powers[t - 1][n - 1]);
    }
  }

  lemma {:induction false} NoEnergy(intervals: seq<Interval>, powers: seq<Vec>, n: nat)
    ensures EnergyTotal(intervals, powers, 0, n) == 0.0
  {
    if n > 0 {
      NoEnergy(intervals, powers, n - 1);
    }
  }

  lemma {:induction false} SumIsSplitTotal(weights: seq<Vec>, values: Vec, power: Vec, n: nat, k: nat)
    requires WeightsOk(weights, n) && |values| == |weights| && |power| == n && k <= n
    requires forall c :: 0 <= c < n ==> PowerIs(weights, values, power, n, c)
    ensures forall g :: 0 <= g < |weights| ==> |weights[g]| == n
    ensures SumTo(power, k) == SplitTotal(weights, values, |weights|, k)
  {
    assert forall g :: 0 <= g < |weights| ==> WeightsOkRow(weights[g], n);
    if k > 0 {
      SumIsSplitTotal(weights, values, power, n, k - 1);
      assert PowerIs(weights, values, power, n, k - 1);
    }
  }

  /** Component energy equals source energy: the conservation check cannot fail. */
  lemma {:induction false} EnergyConserved(weights: seq<Vec>, intervals: seq<Interval>, powers: seq<Vec>, n: nat, t: nat)
    requires WeightsOk(weights, n) && IsSplit(weights, intervals, powers, n) && t <= |intervals|
    ensures EnergyTotal(intervals, powers, t, n) == SourceEnergy(intervals, t)
  {
    hide Times, PowerIs, WeightsOk;
    if t == 0 {
      NoEnergy(intervals, powers, n);
    } else {
      EnergyConserved(weights, intervals, powers, n, t - 1);
      EnergyTotalGrows(intervals, powers, t, n);
      SumIsSplitTotal(weights, intervals[t - 1].values, powers[t - 1], n, n);
      SplitConserves(weights, intervals[t - 1].values, |weights|, n);
    }
  }

  // ---------------------------------------------------------------- the loop

  predicate ValueOk(value: real, cap: Option<real>) {
    value >= 0.0 && (cap.Some? ==> value <= cap.value)
  }

  ghost predicate ValuesOk(values: Vec, caps: seq<Option<real>>) {
    |values| == |caps| && forall g :: 0 <= g < |values| ==> values[g] >= 0.0 && (caps[g].Some? ==> values[g] <= caps[g].value)
  }

  /** The power of every component in one interval; `None` for a value below zero or above its cap. */
  method SplitInterval(weights: seq<Vec>, caps: seq<Option<real>>, values: Vec, n: nat) returns (power: Option<Vec>)
    requires WeightsOk(weights, n) && |values| == |weights| == |caps|
    ensures power.Some? <==> ValuesOk(values, caps)
    ensures power.Some? ==> |power.value| == n && forall c :: 0 <= c < n ==> PowerIs(weights, values, power.value, n, c)
  {
    assert forall k :: 0 <= k < |weights| ==> WeightsOkRow(weights[k], n);
    var p := seq(n, _ => 0.0);
    for g := 0 to |weights|
      invariant |p| == n && forall k :: 0 <= k < g ==> ValueOk(values[k], caps[k])
      invariant forall c :: 0 <= c < n ==> p[c] == ComponentPower(weights, values, g, c)
    {
      if !ValueOk(values[g], caps[g]) {
        return None;
      }
      p := seq(n, c requires 0 <= c < n => p[c] + Times(values[g], weights[g][c]));
    }
    return Some(p);
  }

  /** Component powers and energies of a whole trace. */
  method NormalizePower(weights: seq<Vec>, caps: seq<Option<real>>, intervals: seq<Interval>, n: nat)
    returns (powers: Option<seq<Vec>>, energy: Vec)
    requires WeightsOk(weights, n) && IntervalsOk(intervals, |weights|) && |caps| == |weights|
    ensures powers.Some? <==> forall t :: 0 <= t < |intervals| ==> ValuesOk(intervals[t].values, caps)
    ensures powers.Some? ==> IsSplit(weights, intervals, powers.value, n) && |energy| == n
    ensures powers.Some? ==> forall c :: 0 <= c < n ==> energy[c] == ComponentEnergy(intervals, powers.value, |intervals|, c)
    ensures powers.Some? ==> SumTo(energy, n) == SourceEnergy(intervals, |intervals|)
  {
    hide Times, PowerIs, WeightsOk, ValuesOk;
    var p: seq<Vec> := [];
    energy := seq(n, _ => 0.0);
    for t := 0 to |intervals|
      invariant |p| == t && |energy| == n && forall k :: 0 <= k < t ==> |p[k]| == n && ValuesOk(intervals[k].values, caps)
      invariant forall k, c :: 0 <= k < t && 0 <= c < n ==> PowerIs(weights, intervals[k].values, p[k], n, c)
      invariant forall c :: 0 <= c < n ==> energy[c] == ComponentEnergy(intervals, p, t, c)
    {
      var power := SplitInterval(weights, caps, intervals[t].values, n);
      if power.None? {
        return None, energy;
      }
      ghost var before := p;
      p := p + [power.value];
      forall c | 0 <= c < n ensures ComponentEnergy(intervals, p, t, c) == ComponentEnergy(intervals, before, t, c) {
        EnergyPrefix(intervals, before, p, t, c);
      }
      energy := seq(n, c requires 0 <= c < n => energy[c] + Times(Duration(intervals[t]), power.value[c]));
    }
    SumIsEnergyTotal(intervals, p, energy, n, n);
    EnergyConserved(weights, intervals, p, n, |intervals|);
    powers := Some(p);
  }

  lemma {:induction false} EnergyPrefix(intervals: seq<Interval>, powers: seq<Vec>, more: seq<Vec>, t: nat, c: nat)
    requires t <= |intervals| && t <= |powers| && powers <= more && forall k :: 0 <= k < t ==> c < |powers[k]|
    ensures forall k :: 0 <= k < t ==> c < |more[k]|
    ensures ComponentEnergy(intervals, more, t, c) == ComponentEnergy(intervals, powers, t, c)
  {
    hide Times;
    assert forall k :: 0 <= k < t ==> more[k] == powers[k];
    if t > 0 {
      EnergyPrefix(intervals, powers, more, t - 1, c);
    }
  }

  lemma {:induction false} SumIsEnergyTotal(intervals: seq<Interval>, powers: seq<Vec>, energy: Vec, n: nat, k: nat)
    requires |powers| == |intervals| && |energy| == n && k <= n && forall t :: 0 <= t < |powers| ==> |powers[t]| == n
    requires forall c :: 0 <= c < n ==> energy[c] == ComponentEnergy(intervals, powers, |intervals|, c)
    ensures SumTo(energy, k) == EnergyTotal(intervals, powers, |intervals|, k)
  {
    if k > 0 {
      SumIsEnergyTotal(intervals, powers, energy, n, k - 1);
    }
  }
}
