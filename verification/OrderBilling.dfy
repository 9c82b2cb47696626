/** Order amounts: pack sizes, line and whole-catalog bills, and the order total, rounded to paise. */
module OrderBilling {
  import opened Common
  import opened Text

  /** `Math.round(x * 100) / 100`: half a paisa rounds up. */
  function Round2(x: real): real {
    (x * 100.0 + 0.5).Floor as real / 100.0
  }

  predicate IsPackName(unit: string) {
    unit == "set" || unit == "dozen" || unit == "box" || unit == "bundle"
  }

  function TrimmedUnit(unit: Option<string>): string {
    match unit case None => "" case Some(u) => Trim(u)
  }

  predicate IsPackOrderUnit(unit: Option<string>) {
    IsPackName(TrimmedUnit(unit))
  }

  function PackSizeForUnit(unit: Option<string>, piecesPerPack: Option<real>): Option<real> {
    if piecesPerPack.Some? && piecesPerPack.value > 0.0 then piecesPerPack
    else if TrimmedUnit(unit) == "dozen" then Some(12.0)
    else None
  }

  function LineDispatchQty(qty: real, unit: Option<string>, piecesPerPack: Option<real>): Option<real> {
    if qty <= 0.0 then None
    else if !IsPackOrderUnit(unit) then Some(qty)
    else
      match PackSizeForUnit(unit, piecesPerPack)
      case None => None
      case Some(pack) => Some(Multiplied(qty, pack))
  }

  function Multiplied(x: real, y: real): real { x * y }

  function LineBillAmount(quantity: real, rate: Option<real>, unit: Option<string>, piecesPerPack: Option<real>)
    : Option<real>
  {
    if rate.None? || rate.value < 0.0 || quantity <= 0.0 then None
    else if IsPackOrderUnit(unit) then
      match LineDispatchQty(quantity, unit, piecesPerPack)
      case None => None
      case Some(dispatchQty) => Some(Round2(Multiplied(rate.value, dispatchQty)))
    else Some(Round2(Multiplied(rate.value, quantity)))
  }

  /** Rate per set, box, bundle or dozen is the price of the whole bunch. */
  predicate CatalogRateIsBunchPrice(catalogRateUnit: Option<string>) {
    IsPackName(TrimmedUnit(catalogRateUnit))
  }

  /** The stated Rate per, else the order unit unless that is a pack, else pieces; both arguments trimmed. */
  function RateUnitChoice(unit: string, rateUnit: string): string {
    if rateUnit != "" then rateUnit
    else if IsPackName(unit) || unit == "" then "pc"
    else unit
  }

  function RateUnitOrDefault(unit: Option<string>, catalogRateUnit: Option<string>): string {
    RateUnitChoice(TrimmedUnit(unit), TrimmedUnit(catalogRateUnit))
  }

  function CatalogBunchBill(quantity: real, rate: Option<real>, unit: Option<string>, catalogRateUnit: Option<string>,
                            piecesPerPack: Option<real>, memberCount: nat): Option<real>
  {
    if rate.None? || rate.value < 0.0 || quantity <= 0.0 || memberCount < 1 then None
    else if CatalogRateIsBunchPrice(Some(RateUnitOrDefault(unit, catalogRateUnit))) then
      Some(Round2(Multiplied(rate.value, quantity)))
    else
      match LineBillAmount(quantity, rate, unit, piecesPerPack)
      case None => None
      case Some(oneMember) => Some(Round2(oneMember * memberCount as real))
  }

  // ---- What a line is billed ----

  /** Pieces, or a unit that is no pack: rate times quantity to the nearest paisa, half a paisa up. */
  lemma PiecesBillTheirRate(quantity: real, rate: Option<real>, unit: Option<string>, piecesPerPack: Option<real>)
    requires unit.Some? ==> Trim(unit.value) !in {"set", "dozen", "box", "bundle"}
    ensures var amount := LineBillAmount(quantity, rate, unit, piecesPerPack);
            && (amount.Some? <==> rate.Some? && rate.value >= 0.0 && quantity > 0.0)
            && (amount.Some? ==> WholePaise(amount.value) && -0.005 < amount.value - rate.value * quantity <= 0.005)
  {
    if unit.Some? {
      assert TrimmedUnit(unit) == Trim(unit.value);
    }
    LineBillIsWhole(quantity, rate, unit, piecesPerPack);
    if rate.Some? {
      RoundingIsNear(Multiplied(rate.value, quantity));
    }
  }

  lemma RoundingIsNear(x: real)
    ensures -0.005 < Round2(x) - x <= 0.005
  {
  }

  /** A line dispatched as `pieces` pieces is billed as that many pieces. */
  lemma DispatchIsBilled(quantity: real, rate: Option<real>, unit: Option<string>, piecesPerPack: Option<real>, pieces: real)
    requires IsPackOrderUnit(unit) && (quantity > 0.0 <==> pieces > 0.0)
    requires quantity > 0.0 ==> LineDispatchQty(quantity, unit, piecesPerPack) == Some(pieces)
    ensures LineBillAmount(quantity, rate, unit, piecesPerPack) == LineBillAmount(pieces, rate, None, None)
  {
  }

  /** Packs of `p` pieces bill what that many pieces bill. */
  lemma PacksBillTheirPieces(quantity: real, rate: Option<real>, unit: string, p: real)
    requires Trim(unit) in {"set", "dozen", "box", "bundle"} && p > 0.0
    ensures LineBillAmount(quantity, rate, Some(unit), Some(p)) == LineBillAmount(quantity * p, rate, None, None)
  {
    assert TrimmedUnit(Some(unit)) == Trim(unit);
    DispatchIsBilled(quantity, rate, Some(unit), Some(p), Multiplied(quantity, p));
  }

  /** Without a pack size a dozen is twelve, and a set, a box or a bundle cannot be billed. */
  lemma PacksWithoutASize(quantity: real, rate: Option<real>, unit: string, piecesPerPack: Option<real>)
    requires Trim(unit) in {"set", "dozen", "box", "bundle"} && (piecesPerPack.Some? ==> piecesPerPack.value <= 0.0)
    ensures LineBillAmount(quantity, rate, Some(unit), piecesPerPack) ==
            if Trim(unit) == "dozen" then LineBillAmount(12.0 * quantity, rate, None, None) else None
  {
  }

  /** At a rate per set, dozen, box or bundle the whole catalog is billed once, however many designs it has. */
  lemma BunchPriceIsBilledOnce(quantity: real, rate: Option<real>, unit: Option<string>, rateUnit: string,
                               piecesPerPack: Option<real>, memberCount: nat)
    requires Trim(rateUnit) in {"set", "dozen", "box", "bundle"}
    ensures CatalogBunchBill(quantity, rate, unit, Some(rateUnit), piecesPerPack, memberCount) ==
            if memberCount == 0 then None else LineBillAmount(quantity, rate, None, None)
  {
  }

  // ---- Sums of amounts that may be missing ----

  function Plus(a: Option<real>, b: Option<real>): Option<real> {
    if a.None? || b.None? then None else Some(a.value + b.value)
  }

  /** None as soon as one amount is missing. */
  function Sum(amounts: seq<Option<real>>): Option<real> {
    if amounts == [] then Some(0.0) else Plus(Sum(amounts[..|amounts| - 1]), amounts[|amounts| - 1])
  }

  lemma {:induction false} SumConcat(a: seq<Option<real>>, b: seq<Option<real>>)
    ensures Sum(a + b) == Plus(Sum(a), Sum(b))
  {
    if b == [] {
      assert a + b == a;
    } else {
      assert (a + b)[..|a + b| - 1] == a + b[..|b| - 1];
      SumConcat(a, b[..|b| - 1]);
    }
  }

  lemma SumOfOne(x: Option<real>)
    ensures Sum([x]) == x
  {
  }

  lemma SumOfInsert(left: seq<Option<real>>, x: Option<real>, right: seq<Option<real>>)
    ensures Sum(left + [x] + right) == Plus(Sum(left + right), x)
  {
    SumConcat(left + [x], right);
    SumConcat(left, [x]);
    SumConcat(left, right);
    SumOfOne(x);
  }

  lemma OthersMatch<X>(front: seq<X>, x: X, left: seq<X>, right: seq<X>)
    requires multiset(front + [x]) == multiset(left + [x] + right)
    ensures multiset(front) == multiset(left + right)
  {
    assert multiset(front + [x]) - multiset{x} == multiset(front);
    assert multiset(left + [x] + right) - multiset{x} == multiset(left + right);
  }

  /** The order of the amounts does not matter. */
  lemma {:induction false} SumOfPermutation(a: seq<Option<real>>, b: seq<Option<real>>)
    requires multiset(a) == multiset(b)
    ensures Sum(a) == Sum(b)
    decreases |a|
  {
    if a == [] {
      assert |multiset(b)| == 0;
    } else {
      var front, x := a[..|a| - 1], a[|a| - 1];
      assert a == front + [x];
      assert x in multiset(b);
      var k :| 0 <= k < |b| && b[k] == x;
      var left, right := b[..k], b[k + 1..];
      assert b == left + [x] + right;
      OthersMatch(front, x, left, right);
      SumOfPermutation(front, left + right);
      SumOfInsert(left, x, right);
    }
  }

  lemma {:induction false} SumOfEqualAmounts(amounts: seq<Option<real>>, amount: Option<real>)
    requires forall i :: 0 <= i < |amounts| ==> amounts[i] == amount
    ensures Sum(amounts) == if amounts == [] then Some(0.0)
                            else if amount.None? then None
                            else Some(Times(amount.value, |amounts|))
  {
    if amounts != [] {
      SumOfEqualAmounts(amounts[..|amounts| - 1], amount);
      if amount.Some? {
        TimesStep(amount.value, |amounts|);
      }
    }
  }

  function Times(x: real, n: nat): real { x * n as real }

  lemma TimesStep(x: real, n: nat)
    requires n > 0
    ensures Times(x, n) == Times(x, n - 1) + x
    ensures Times(x, 0) == 0.0
  {
  }

  lemma {:induction false} SumNeedsEveryAmount(amounts: seq<Option<real>>)
    ensures Sum(amounts).None? <==> None in amounts
  {
    if amounts != [] {
      SumNeedsEveryAmount(amounts[..|amounts| - 1]);
      assert amounts == amounts[..|amounts| - 1] + [amounts[|amounts| - 1]];
    }
  }

  /** One missing amount makes the whole sum missing. */
  lemma {:induction false} MissingSticks(amounts: seq<Option<real>>, n: nat)
    requires n <= |amounts| && Sum(amounts[..n]).None?
    ensures Sum(amounts).None?
    decreases |amounts|
  {
    if n < |amounts| {
      assert amounts[..|amounts| - 1][..n] == amounts[..n];
      MissingSticks(amounts[..|amounts| - 1], n);
    } else {
      assert amounts[..n] == amounts;
    }
  }

  // ---- Whole paise ----

  ghost predicate IsPaise(x: real, k: int) {
    x * 100.0 == k as real
  }

  ghost predicate WholePaise(x: real) {
    exists k :: IsPaise(x, k)
  }

  lemma RoundingIsWhole(x: real)
    ensures WholePaise(Round2(x))
  {
    var k := (x * 100.0 + 0.5).Floor;
    assert IsPaise(Round2(x), k);
  }

  /** Rounding leaves whole paise alone. */
  lemma RoundingWholeIsExact(x: real)
    requires WholePaise(x)
    ensures Round2(x) == x
  {
    var k :| IsPaise(x, k);
    assert (k as real + 0.5).Floor == k;
  }

  lemma WholePaiseAdd(x: real, y: real)
    requires WholePaise(x) && WholePaise(y)
    ensures WholePaise(x + y)
  {
    var k, l :| IsPaise(x, k) && IsPaise(y, l);
    assert IsPaise(x + y, k + l);
  }

  lemma {:induction false} WholePaiseTimes(x: real, n: nat)
    requires WholePaise(x)
    ensures WholePaise(Times(x, n))
  {
    if n == 0 {
      assert IsPaise(Times(x, 0), 0);
    } else {
      WholePaiseTimes(x, n - 1);
      WholePaiseAdd(Times(x, n - 1), x);
      TimesStep(x, n);
    }
  }

  ghost predicate AllWhole(amounts: seq<Option<real>>) {
    forall i :: 0 <= i < |amounts| && amounts[i].Some? ==> WholePaise(amounts[i].value)
  }

  lemma {:induction false} SumIsWhole(amounts: seq<Option<real>>)
    requires AllWhole(amounts)
    ensures Sum(amounts).Some? ==> WholePaise(Sum(amounts).value)
  {
    if amounts == [] {
      assert IsPaise(0.0, 0);
    } else if Sum(amounts).Some? {
      SumIsWhole(amounts[..|amounts| - 1]);
      WholePaiseAdd(Sum(amounts[..|amounts| - 1]).value, amounts[|amounts| - 1].value);
    }
  }

  lemma LineBillIsWhole(quantity: real, rate: Option<real>, unit: Option<string>, piecesPerPack: Option<real>)
    ensures var amount := LineBillAmount(quantity, rate, unit, piecesPerPack);
            amount.Some? ==> WholePaise(amount.value)
  {
    if LineBillAmount(quantity, rate, unit, piecesPerPack).Some? {
      if IsPackOrderUnit(unit) {
        RoundingIsWhole(Multiplied(rate.value, LineDispatchQty(quantity, unit, piecesPerPack).value));
      } else {
        RoundingIsWhole(Multiplied(rate.value, quantity));
      }
    }
  }

  /** When Rate per is not a bunch unit, neither is the unit that stands in for a blank one. */
  lemma RateUnitStaysPerPiece(unit: Option<string>, catalogRateUnit: Option<string>)
    requires !CatalogRateIsBunchPrice(catalogRateUnit)
    ensures !CatalogRateIsBunchPrice(Some(RateUnitOrDefault(unit, catalogRateUnit)))
  {
  }

  lemma BunchBillPerPiece(quantity: real, rate: Option<real>, unit: Option<string>, catalogRateUnit: Option<string>,
                          piecesPerPack: Option<real>, n: nat)
    requires n > 0 && !CatalogRateIsBunchPrice(catalogRateUnit)
    ensures var oneMember := LineBillAmount(quantity, rate, unit, piecesPerPack);
            CatalogBunchBill(quantity, rate, unit, catalogRateUnit, piecesPerPack, n) ==
            if oneMember.None? then None else Some(Round2(Times(oneMember.value, n)))
  {
  }

  /** Equal whole-paise amounts: rounding their multiple once is adding them up. */
  lemma EqualMembersAddUp(amount: Option<real>, amounts: seq<Option<real>>)
    requires amount.Some? ==> WholePaise(amount.value)
    requires amounts != [] && forall i :: 0 <= i < |amounts| ==> amounts[i] == amount
    ensures Sum(amounts) == if amount.None? then None else Some(Round2(Times(amount.value, |amounts|)))
  {
    SumOfEqualAmounts(amounts, amount);
    if amount.Some? {
      WholePaiseTimes(amount.value, |amounts|);
      RoundingWholeIsExact(Times(amount.value, |amounts|));
    }
  }

  /** At equal quantity and terms, the bunch bill is the sum of its members' line amounts. */
  lemma BunchBillIsMemberSum(quantity: real, rate: Option<real>, unit: Option<string>, catalogRateUnit: Option<string>,
                             piecesPerPack: Option<real>, amounts: seq<Option<real>>)
    requires amounts != [] && !CatalogRateIsBunchPrice(catalogRateUnit)
    requires forall i :: 0 <= i < |amounts| ==> amounts[i] == LineBillAmount(quantity, rate, unit, piecesPerPack)
    ensures CatalogBunchBill(quantity, rate, unit, catalogRateUnit, piecesPerPack, |amounts|) == Sum(amounts)
  {
    BunchBillPerPiece(quantity, rate, unit, catalogRateUnit, piecesPerPack, |amounts|);
    LineBillIsWhole(quantity, rate, unit, piecesPerPack);
    EqualMembersAddUp(LineBillAmount(quantity, rate, unit, piecesPerPack), amounts);
  }
}
