/** Sums over the values of a map, for measures of how far many participants are from being done. */
module Sums {
  ghost function Sum(m: map<nat, nat>): nat
    decreases |m|
  {
    if m == map[] then 0
    else
      var a :| a in m;
      m[a] + Sum(m - {a})
  }

  /** Any entry may be taken out first. */
  lemma {:induction false} SumPick(m: map<nat, nat>, a: nat)
    requires a in m
    ensures Sum(m) == m[a] + Sum(m - {a})
    decreases |m|
  {
    var b :| b in m && Sum(m) == m[b] + Sum(m - {b});
    if a != b {
      SumPick(m - {b}, a);
      SumPick(m - {a}, b);
      assert m - {a} - {b} == m - {b} - {a};
    }
  }

  lemma SumUpdate(m: map<nat, nat>, a: nat, v: nat)
    requires a in m
    ensures Sum(m[a := v]) == Sum(m) - m[a] + v
  {
    SumPick(m, a);
    SumPick(m[a := v], a);
    assert m[a := v] - {a} == m - {a};
  }
}
