/** Spreading a period's consumption over a plan's tiers, each tier filled before the next. Quantities are real kWh. */
module PlanTiers {
  import opened Wrappers

  function Min(a: real, b: real): real {
    if a <= b then a else b
  }

  function Max(a: real, b: real): real {
    if a >= b then a else b
  }

  /** What a list of tiers can hold: None once a tier has no bound. A tier of negative size holds nothing. */
  function Capacity(tiers: seq<Option<real>>): (c: Option<real>)
    ensures c.Some? ==> c.value >= 0.0
  {
    if tiers == [] then Some(0.0)
    else
      var n := |tiers| - 1;
      var c := Capacity(tiers[..n]);
      if c == None || tiers[n] == None then None else Some(c.value + Max(0.0, tiers[n].value))
  }

  /** How much of a consumption the tiers take: all they can hold of it. */
  function Taken(tiers: seq<Option<real>>, consumed: real): real {
    var c := Capacity(tiers);
    if c == None then Max(0.0, consumed) else Min(Max(0.0, consumed), c.value)
  }

  function Sum(s: seq<real>): real {
    if s == [] then 0.0 else Sum(s[..|s| - 1]) + s[|s| - 1]
  }

  /** Every prefix of the tiers has taken as much as it can: the amounts are the differences. */
  ghost predicate Fills(out: seq<real>, tiers: seq<Option<real>>, consumed: real) {
    |out| == |tiers| && forall i :: 0 <= i <= |tiers| ==> Sum(out[..i]) == Taken(tiers[..i], consumed)
  }

  /** What the loop has left after a prefix of the tiers. */
  ghost predicate IsLeft(remaining: real, tiers: seq<Option<real>>, consumed: real) {
    remaining == consumed - Taken(tiers, consumed) || (remaining == 0.0 && consumed <= 0.0)
  }

  /** One more tier takes the loop's amount. */
  lemma NextTier(tiers: seq<Option<real>>, i: nat, consumed: real, remaining: real, used: real)
    requires i < |tiers| && IsLeft(remaining, tiers[..i], consumed)
    requires used == Max(0.0, if tiers[i] == None then remaining else Min(remaining, tiers[i].value))
    ensures Taken(tiers[..i + 1], consumed) == Taken(tiers[..i], consumed) + used
    ensures IsLeft(if remaining - used <= 0.0 && tiers[i] != None then 0.0 else remaining - used, tiers[..i + 1], consumed)
  {
    assert tiers[..i + 1][..i] == tiers[..i];
  }

  lemma NoTier(tiers: seq<Option<real>>, consumed: real)
    ensures Taken(tiers[..0], consumed) == 0.0 && Sum([]) == 0.0 && IsLeft(consumed, tiers[..0], consumed)
  {
  }

  lemma SumMore(out: seq<real>, used: real)
    ensures Sum(out + [used]) == Sum(out) + used
  {
    assert (out + [used])[..|out|] == out;
  }

  method SplitConsumedAcrossTiers(tiers: seq<Option<real>>, consumed: real) returns (out: seq<real>)
    ensures Fills(out, tiers, consumed)
  {
    hide Taken, Sum, IsLeft;
    out := [];
    var remaining := consumed;
    NoTier(tiers, consumed);
    for i := 0 to |tiers|
      invariant |out| == i
      invariant forall k :: 0 <= k <= i ==> Sum(out[..k]) == Taken(tiers[..k], consumed)
      invariant IsLeft(remaining, tiers[..i], consumed)
    {
      ghost var before := out;
      var t := tiers[i];
      var used := Max(0.0, if t == None then remaining else Min(remaining, t.value));
      NextTier(tiers, i, consumed, remaining, used);
      SumMore(out, used);
      out := out + [used];
      remaining := remaining - used;
      if remaining <= 0.0 && t != None {
        remaining := 0.0;
      }
      forall k | 0 <= k <= i ensures out[..k] == before[..k] {
      }
      assert out[..i + 1] == out && before[..i] == before;
    }
  }

  // --- What filling means ----------------------------------------------------------------------------

  lemma AmountIs(out: seq<real>, tiers: seq<Option<real>>, consumed: real, i: nat)
    requires Fills(out, tiers, consumed) && i < |tiers|
    ensures out[i] == Taken(tiers[..i + 1], consumed) - Taken(tiers[..i], consumed)
  {
    assert out[..i + 1][..i] == out[..i];
    assert Sum(out[..i + 1]) == Sum(out[..i]) + out[i];
  }

  /** Each amount is what is left over the earlier tiers, clamped to the tier; after an unbounded tier, nothing. */
  lemma ClosedForm(out: seq<real>, tiers: seq<Option<real>>, consumed: real, i: nat)
    requires Fills(out, tiers, consumed) && i < |tiers|
    ensures var c := Capacity(tiers[..i]);
            out[i] == if c == None then 0.0
                      else var left := Max(0.0, consumed - c.value);
                           if tiers[i] == None then left else Min(left, Max(0.0, tiers[i].value))
  {
    AmountIs(out, tiers, consumed, i);
    assert tiers[..i + 1][..i] == tiers[..i];
  }

  /** What the tiers can hold: the sum of their sizes, a negative one counting as none; without bound iff one has none. */
  lemma {:induction false} CapacityIs(tiers: seq<Option<real>>)
    ensures Capacity(tiers) == None <==> None in tiers
    ensures None !in tiers ==> Capacity(tiers) == Some(Sum(Sizes(tiers)))
  {
    if tiers != [] {
      var n := |tiers| - 1;
      CapacityIs(tiers[..n]);
      assert tiers == tiers[..n] + [tiers[n]];
      if None !in tiers {
        assert tiers[n] in tiers && Sizes(tiers)[..n] == Sizes(tiers[..n]);
      }
    }
  }

  function Sizes(tiers: seq<Option<real>>): seq<real>
    requires None !in tiers
  {
    seq(|tiers|, i requires 0 <= i < |tiers| => if tiers[i].Some? && tiers[i].value > 0.0 then tiers[i].value else 0.0)
  }

  /** Together the tiers take the consumption, up to what the plan can hold. */
  lemma TotalIsConserved(out: seq<real>, tiers: seq<Option<real>>, consumed: real)
    requires Fills(out, tiers, consumed)
    ensures Sum(out) == Taken(tiers, consumed)
    ensures None in tiers && consumed >= 0.0 ==> Sum(out) == consumed
    ensures None !in tiers && consumed >= 0.0 ==> Sum(out) == Min(consumed, Sum(Sizes(tiers)))
    ensures consumed <= 0.0 ==> Sum(out) == 0.0
  {
    CapacityIs(tiers);
    assert out[..|tiers|] == out && tiers[..|tiers|] == tiers;
  }

  /** A tier is used only when every earlier one is full. */
  lemma UsedOnlyWhenEarlierFull(out: seq<real>, tiers: seq<Option<real>>, consumed: real, j: nat, i: nat)
    requires Fills(out, tiers, consumed) && j < i < |tiers| && out[i] > 0.0
    ensures tiers[j].Some? && out[j] == Max(0.0, tiers[j].value)
  {
    ClosedForm(out, tiers, consumed, i);
    ClosedForm(out, tiers, consumed, j);
    CapacityGrows(tiers, j + 1, i);
    assert tiers[..j + 1][..j] == tiers[..j];
  }

  lemma {:induction false} CapacityGrows(tiers: seq<Option<real>>, j: nat, i: nat)
    requires j <= i <= |tiers|
    ensures Capacity(tiers[..i]).Some? ==> Capacity(tiers[..j]).Some? && Capacity(tiers[..j]).value <= Capacity(tiers[..i]).value
  {
    if j < i {
      assert tiers[..i][..i - 1] == tiers[..i - 1];
      CapacityGrows(tiers, j, i - 1);
    }
  }

  /** More consumption never lowers what any prefix of the tiers has taken. */
  lemma MonotoneInConsumption(lo: seq<real>, hi: seq<real>, tiers: seq<Option<real>>, a: real, b: real, i: nat)
    requires Fills(lo, tiers, a) && Fills(hi, tiers, b) && a <= b && i <= |tiers|
    ensures Sum(lo[..i]) <= Sum(hi[..i])
  {
    assert Sum(lo[..i]) == Taken(tiers[..i], a) && Sum(hi[..i]) == Taken(tiers[..i], b);
  }
}
