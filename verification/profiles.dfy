/**
 * The risk-profile table: five asset classes in a fixed order, three
 * profiles with one weight per class, and the start-up check that every
 * profile's weights sum to 1 within 1e-6.
 */
module Profiles {
  import opened Wrappers
  import Stats

  /** The asset classes, in the order the weights follow. */
  const AssetClasses: seq<string> := ["a\U{E7}\U{F5}es", "crypto", "renda_fixa", "fx", "moeda"]

  /** A named allocation: one weight per asset class. */
  datatype Profile = Profile(name: string, weights: seq<real>)

  /** The three profiles, in the table's order. */
  const Table: seq<Profile> := [
    Profile("conservador", [0.15, 0.00, 0.65, 0.10, 0.10]),
    Profile("moderado", [0.40, 0.05, 0.40, 0.10, 0.05]),
    Profile("agressivo", [0.65, 0.15, 0.10, 0.05, 0.05])
  ]

  /** The tolerance of the sum check. */
  const Tolerance: real := 0.000001

  predicate SumsToOne(p: Profile) {
    Stats.Abs(Stats.Sum(p.weights) - 1.0) < Tolerance
  }

  /**
   * The check loop: the name of the first profile whose weights miss 1 by
   * the tolerance or more (the assertion that fails), or None.
   */
  function FirstUnbalanced(ps: seq<Profile>): (r: Option<string>)
    ensures r.None? <==> forall i :: 0 <= i < |ps| ==> SumsToOne(ps[i])
    ensures r.Some? ==> exists i :: 0 <= i < |ps| && !SumsToOne(ps[i]) && ps[i].name == r.value
                                    && forall j :: 0 <= j < i ==> SumsToOne(ps[j])
    decreases |ps|
  {
    if |ps| == 0 then None
    else if !SumsToOne(ps[0]) then Some(ps[0].name)
    else
      var rest := FirstUnbalanced(ps[1..]);
      assert forall i :: 1 <= i < |ps| ==> ps[i] == ps[1..][i - 1];
      if rest.Some? then
        var i :| 0 <= i < |ps[1..]| && !SumsToOne(ps[1..][i]) && ps[1..][i].name == rest.value
                 && forall j :: 0 <= j < i ==> SumsToOne(ps[1..][j]);
        assert forall j :: 0 <= j < i + 1 ==> SumsToOne(ps[j]) by {
          forall j | 0 <= j < i + 1 ensures SumsToOne(ps[j]) {
            if j > 0 { assert ps[j] == ps[1..][j - 1]; }
          }
        }
        rest
      else rest
  }

  /** Shape of the table: three profiles, one weight per asset class, each in [0, 1]. */
  lemma TableShape()
    ensures |AssetClasses| == 5 && |Table| == 3
    ensures forall i :: 0 <= i < |Table| ==> |Table[i].weights| == |AssetClasses|
    ensures forall i, k :: 0 <= i < |Table| && 0 <= k < |Table[i].weights| ==>
              0.0 <= Table[i].weights[k] <= 1.0
  {
  }

  /** The conservative profile holds no crypto. */
  lemma ConservativeHoldsNoCrypto()
    ensures Table[0].name == "conservador" && AssetClasses[1] == "crypto"
    ensures Table[0].weights[1] == 0.0
  {
  }

  /** Each profile's weights add up to exactly 1, so the check passes. */
  lemma TableBalanced()
    ensures forall i :: 0 <= i < |Table| ==> Stats.Sum(Table[i].weights) == 1.0
    ensures FirstUnbalanced(Table) == None
  {
    forall i | 0 <= i < |Table|
      ensures Stats.Sum(Table[i].weights) == 1.0
    {
      var w := Table[i].weights;
      assert Stats.Sum(w[4..]) == w[4] by { assert w[4..][1..] == []; }
      assert Stats.Sum(w[3..]) == w[3] + w[4] by { assert w[3..][1..] == w[4..]; }
      assert Stats.Sum(w[2..]) == w[2] + w[3] + w[4] by { assert w[2..][1..] == w[3..]; }
      assert Stats.Sum(w[1..]) == w[1] + w[2] + w[3] + w[4] by { assert w[1..][1..] == w[2..]; }
    }
  }
}
