/** `manufacture_combination_space` (`src/gymact/combinatorial.py`): a bounded product of choice dimensions. */
module Combinations {
  import opened Outcomes
  import opened Sequences
  import opened CartesianProduct

  datatype Factor = Factor(factorId: string, alternatives: seq<string>)

  /** One alternative for each factor id. */
  type Combination = map<string, string>

  datatype CombinationSpace = CombinationSpace(
    factors: seq<Factor>, totalCardinality: nat, combinations: seq<Combination>, truncated: bool)

  datatype CombinationError = DuplicateFactorId

  function Ids(factors: seq<Factor>): seq<string> {
    seq(|factors|, i requires 0 <= i < |factors| => factors[i].factorId)
  }

  function Alternatives(factors: seq<Factor>): seq<seq<string>> {
    seq(|factors|, i requires 0 <= i < |factors| => factors[i].alternatives)
  }

  /** `dict(zip(ids, choice))`. */
  function Assign(ids: seq<string>, choice: seq<string>): Combination
    requires |ids| == |choice|
  {
    if ids == [] then map[]
    else Assign(ids[..|ids| - 1], choice[..|ids| - 1])[ids[|ids| - 1] := choice[|ids| - 1]]
  }

  function AssignEach(ids: seq<string>, choices: seq<seq<string>>): (combinations: seq<Combination>)
    requires forall c :: c in choices ==> |c| == |ids|
    ensures |combinations| == |choices|
    ensures forall i :: 0 <= i < |choices| ==> |choices[i]| == |ids| && combinations[i] == Assign(ids, choices[i])
  {
    if choices == [] then []
    else
      var front, last := choices[..|choices| - 1], choices[|choices| - 1];
      assert last in choices;
      AssignEach(ids, front) + [Assign(ids, last)]
  }

  predicate Repeats(ids: seq<string>) {
    exists i, j :: 0 <= i < j < |ids| && ids[i] == ids[j]
  }

  /** `islice(tuples, bound)`. */
  function Slice<T>(s: seq<T>, bound: nat): (r: seq<T>)
    ensures r <= s && |r| == (if |s| <= bound then |s| else bound)
  {
    if |s| <= bound then s else s[..bound]
  }

  function ManufactureCombinationSpace(factors: seq<Factor>, maxCombinations: nat)
    : (r: Result<CombinationSpace, CombinationError>)
    ensures r.Failure? <==> !NoDup(Ids(factors))
    ensures r.Success? ==> r.value.factors == factors
    ensures r.Success? ==> r.value.truncated == (r.value.totalCardinality > maxCombinations)
  {
    var ids := Ids(factors);
    if Repeats(ids) then Failure(DuplicateFactorId)
    else
      var choices := Slice(Product(Alternatives(factors)), maxCombinations);
      ProductLength(Alternatives(factors));
      assert forall c :: c in choices ==> |c| == |ids| by {
        forall c | c in choices ensures |c| == |ids| {
          ProductExact(Alternatives(factors), c);
        }
      }
      var total := Cardinality(Alternatives(factors));
      var values := AssignEach(ids, choices);
      Success(CombinationSpace(factors, total, values, |values| < total))
  }

  lemma {:induction false} AssignLooksUp(ids: seq<string>, choice: seq<string>)
    requires NoDup(ids) && |ids| == |choice|
    ensures Assign(ids, choice).Keys == ToSet(ids)
    ensures forall i :: 0 <= i < |ids| ==> ids[i] in Assign(ids, choice) && Assign(ids, choice)[ids[i]] == choice[i]
  {
    if ids != [] {
      var front, start := ids[..|ids| - 1], choice[..|ids| - 1];
      AssignLooksUp(front, start);
      FrontAndLast(ids);
      forall i | 0 <= i < |front| ensures ids[i] in Assign(ids, choice) && Assign(ids, choice)[ids[i]] == choice[i] {
        assert front[i] == ids[i] && start[i] == choice[i] && ids[i] != ids[|ids| - 1];
      }
    }
  }

  lemma AssignInjective(ids: seq<string>, a: seq<string>, b: seq<string>)
    requires NoDup(ids) && |a| == |ids| == |b| && Assign(ids, a) == Assign(ids, b)
    ensures a == b
  {
    AssignLooksUp(ids, a);
    AssignLooksUp(ids, b);
    forall i | 0 <= i < |a| ensures a[i] == b[i] {
      assert Assign(ids, a)[ids[i]] == a[i];
    }
  }

  /** The space manufactured for `factors` under a bound. */
  ghost function Space(factors: seq<Factor>, bound: nat): CombinationSpace
    requires NoDup(Ids(factors))
  {
    ManufactureCombinationSpace(factors, bound).value
  }

  /**
   The enumeration law: combination `i` assigns the mixed-radix digits of `i`, the bound keeps the
   first of them, and the total counts them all.
   */
  lemma CombinationsAreMixedRadix(factors: seq<Factor>, bound: nat)
    requires NoDup(Ids(factors)) && forall f :: f in factors ==> f.alternatives != []
    ensures var space := Space(factors, bound); var sizes := Alternatives(factors);
            && space.totalCardinality == Cardinality(sizes)
            && |space.combinations| == (if Cardinality(sizes) <= bound then Cardinality(sizes) else bound)
            && NoneEmpty(sizes)
            && forall i :: 0 <= i < |space.combinations| ==>
                 |Decode(sizes, i)| == |factors| && space.combinations[i] == Assign(Ids(factors), Decode(sizes, i))
  {
    var sizes, space := Alternatives(factors), Space(factors, bound);
    ProductLength(sizes);
    forall i | 0 <= i < |factors| ensures sizes[i] != [] {
      assert factors[i] in factors;
    }
    forall i | 0 <= i < |space.combinations|
      ensures |Decode(sizes, i)| == |factors| && space.combinations[i] == Assign(Ids(factors), Decode(sizes, i))
    {
      ProductIsMixedRadix(sizes, i);
      ProductExact(sizes, Product(sizes)[i]);
    }
  }

  /** Combination `i`, factor by factor: each factor's id is assigned its digit of `i`, the last factor turning fastest. */
  lemma CombinationDigits(factors: seq<Factor>, bound: nat, i: nat, k: nat)
    requires NoDup(Ids(factors)) && forall f :: f in factors ==> f.alternatives != []
    requires i < |Space(factors, bound).combinations| && k < |factors|
    ensures var combination, sizes := Space(factors, bound).combinations[i], Alternatives(factors);
            && combination.Keys == ToSet(Ids(factors)) && Cardinality(sizes[k + 1..]) > 0
            && factors[k].factorId in combination
            && combination[factors[k].factorId] ==
               factors[k].alternatives[i / Cardinality(sizes[k + 1..]) % |factors[k].alternatives|]
  {
    CombinationsAreMixedRadix(factors, bound);
    var sizes := Alternatives(factors);
    DigitAt(sizes, i, k);
    AssignLooksUp(Ids(factors), Decode(sizes, i));
    hide Space;
    hide Assign;
    assert Ids(factors)[k] == factors[k].factorId && sizes[k] == factors[k].alternatives;
    assert factors[k] in factors;
  }

  /** Distinct alternatives give distinct combinations. */
  lemma CombinationsDistinct(factors: seq<Factor>, bound: nat)
    requires NoDup(Ids(factors)) && forall f :: f in factors ==> NoDup(f.alternatives)
    ensures NoDup(Space(factors, bound).combinations)
  {
    var ids, choices := Ids(factors), Slice(Product(Alternatives(factors)), bound);
    ProductNoDup(Alternatives(factors));
    NoDupPrefix(Product(Alternatives(factors)), |choices|);
    var values := Space(factors, bound).combinations;
    forall i, j | 0 <= i < j < |values| ensures values[i] != values[j] {
      ProductExact(Alternatives(factors), choices[i]);
      ProductExact(Alternatives(factors), choices[j]);
      if values[i] == values[j] {
        AssignInjective(ids, choices[i], choices[j]);
      }
    }
  }

  /** With distinct alternatives, the space holds every assignment exactly when it is not truncated. */
  lemma CompleteIffNotTruncated(factors: seq<Factor>, bound: nat)
    requires NoDup(Ids(factors)) && forall f :: f in factors ==> NoDup(f.alternatives)
    ensures !Space(factors, bound).truncated <==>
            forall choice :: IsChoice(choice, Alternatives(factors)) ==>
              Assign(Ids(factors), choice) in Space(factors, bound).combinations
  {
    var all, sizes, space := Product(Alternatives(factors)), Alternatives(factors), Space(factors, bound);
    ProductLength(sizes);
    if !space.truncated {
      forall choice | IsChoice(choice, sizes) ensures Assign(Ids(factors), choice) in space.combinations {
        ProductExact(sizes, choice);
        var i :| 0 <= i < |all| && all[i] == choice;
        assert space.combinations[i] == Assign(Ids(factors), choice);
      }
    } else {
      var missing := all[bound];
      ProductExact(sizes, missing);
      ProductNoDup(sizes);
      forall i | 0 <= i < |space.combinations| ensures space.combinations[i] != Assign(Ids(factors), missing) {
        ProductExact(sizes, all[i]);
        if space.combinations[i] == Assign(Ids(factors), missing) {
          AssignInjective(Ids(factors), all[i], missing);
        }
      }
      assert IsChoice(missing, sizes) && Assign(Ids(factors), missing) !in space.combinations;
    }
  }

  /** Raising the bound only appends. */
  lemma RaisingTheBoundAppends(factors: seq<Factor>, low: nat, high: nat)
    requires NoDup(Ids(factors)) && low <= high
    ensures Space(factors, low).combinations <= Space(factors, high).combinations
  {
    var a, b := Space(factors, low).combinations, Space(factors, high).combinations;
    var all := Product(Alternatives(factors));
    assert forall i :: 0 <= i < |a| ==> Slice(all, low)[i] == all[i] == Slice(all, high)[i];
  }
}
