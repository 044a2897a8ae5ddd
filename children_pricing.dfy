/** Children's surcharges of a reservation (calculateChildrenPricing in
    src/routes/reservations.js): every child age read from a comma-separated
    text adds a nightly bed charge and a nightly breakfast charge by age band,
    and both totals are multiplied by the number of nights. Amounts are whole
    currency units. */
module ChildrenPricing {
  import opened Text

  /** The nightly bed charge of one child: 20 for ages 3 to 11, 40 for ages
      12 to 17, nothing for infants (0 to 2) or adults (18 and over). */
  function BedRate(age: int): (r: int)
    ensures r >= 0
    ensures r == 20 <==> 3 <= age <= 11
    ensures r == 40 <==> 12 <= age <= 17
    ensures r == 0 <==> age < 3 || age > 17
  {
    if 3 <= age <= 11 then 20
    else if 12 <= age <= 17 then 40
    else 0
  }

  /** The nightly breakfast charge of one child: 15 for ages 6 to 12, 18 for
      any age above 12 (adults included), nothing under 6. The bands do not
      overlap, so age 12 pays 15 and never 18. */
  function BreakfastRate(age: int): (r: int)
    ensures r >= 0
    ensures r == 15 <==> 6 <= age <= 12
    ensures r == 18 <==> age > 12
    ensures r == 0 <==> age < 6
  {
    if 6 <= age <= 12 then 15
    else if age > 12 then 18
    else 0
  }

  /** The ages that parse, in the order they are written: tokens that are
      not numbers are dropped, the rest are kept. */
  function KeepNumbers(tokens: seq<string>): (ages: seq<nat>)
    ensures |ages| <= |tokens|
  {
    if tokens == [] then []
    else
      (match ParseIntToken(tokens[0])
       case Some(a) => [a]
       case None => [])
      + KeepNumbers(tokens[1..])
  }

  /** `childrenAges.split(',').map(parseInt).filter(not NaN)`. */
  function ParseAges(text: string): (ages: seq<nat>)
    ensures |ages| <= |Split(text, ',')|
    ensures ',' !in text ==> ages == if ParseIntToken(text).Some? then [ParseIntToken(text).value] else []
  {
    if ',' in text then KeepNumbers(Split(text, ','))
    else SplitNoSep(text, ','); KeepNumbers(Split(text, ','))
  }

  /** The sum of a per-child rate over a list of ages, accumulated in order. */
  function SumRates(ages: seq<int>, rate: int -> int): int {
    if ages == [] then 0
    else SumRates(ages[..|ages| - 1], rate) + rate(ages[|ages| - 1])
  }

  /** How many ages lie in [lo, hi]. */
  function CountBetween(ages: seq<int>, lo: int, hi: int): (n: nat)
    ensures n <= |ages|
    ensures n == 0 <==> forall k :: 0 <= k < |ages| ==> !(lo <= ages[k] <= hi)
    ensures n == |ages| <==> forall k :: 0 <= k < |ages| ==> lo <= ages[k] <= hi
  {
    if ages == [] then 0
    else CountBetween(ages[..|ages| - 1], lo, hi) + (if lo <= ages[|ages| - 1] <= hi then 1 else 0)
  }

  /** How many ages are strictly above `lo`. */
  function CountAbove(ages: seq<int>, lo: int): (n: nat)
    ensures n <= |ages|
    ensures n == 0 <==> forall k :: 0 <= k < |ages| ==> ages[k] <= lo
    ensures n == |ages| <==> forall k :: 0 <= k < |ages| ==> ages[k] > lo
  {
    if ages == [] then 0
    else CountAbove(ages[..|ages| - 1], lo) + (if ages[|ages| - 1] > lo then 1 else 0)
  }

  datatype ChildrenPrice = ChildrenPrice(bedPrice: int, breakfastPrice: int)

  /** No surcharge is computed without an ages text, with an empty one, or
      for a stay of no nights. */
  predicate NoSurcharge(childrenAges: Option<string>, nights: int) {
    childrenAges.None? || childrenAges.value == "" || nights <= 0
  }

  /** The surcharges of a reservation, as a function of its inputs. */
  function ChildrenSurcharge(childrenAges: Option<string>, nights: int): (p: ChildrenPrice)
    ensures p.bedPrice >= 0 && p.breakfastPrice >= 0
    ensures NoSurcharge(childrenAges, nights) ==> p == ChildrenPrice(0, 0)
  {
    if NoSurcharge(childrenAges, nights) then ChildrenPrice(0, 0)
    else
      var ages := ParseAges(childrenAges.value);
      SumRatesNonNegative(ages, BedRate);
      SumRatesNonNegative(ages, BreakfastRate);
      ChildrenPrice(SumRates(ages, BedRate) * nights, SumRates(ages, BreakfastRate) * nights)
  }

  /** The surcharge computation: one pass over the parsed ages adding each
      child's nightly charges, then one multiplication by the nights. */
  method CalculateChildrenPricing(childrenAges: Option<string>, nights: int) returns (p: ChildrenPrice)
    ensures p == ChildrenSurcharge(childrenAges, nights)
  {
    if NoSurcharge(childrenAges, nights) {
      return ChildrenPrice(0, 0);
    }
    var ages := ParseAges(childrenAges.value);
    var totalBedPrice := 0;
    var totalBreakfastPrice := 0;
    var i := 0;
    while i < |ages|
      invariant 0 <= i <= |ages|
      invariant totalBedPrice == SumRates(ages[..i], BedRate)
      invariant totalBreakfastPrice == SumRates(ages[..i], BreakfastRate)
    {
      var age := ages[i];
      if 3 <= age <= 11 {
        totalBedPrice := totalBedPrice + 20;
      } else if 12 <= age <= 17 {
        totalBedPrice := totalBedPrice + 40;
      }
      if 6 <= age <= 12 {
        totalBreakfastPrice := totalBreakfastPrice + 15;
      } else if age > 12 {
        totalBreakfastPrice := totalBreakfastPrice + 18;
      }
      assert totalBedPrice == SumRates(ages[..i], BedRate) + BedRate(age);
      assert totalBreakfastPrice == SumRates(ages[..i], BreakfastRate) + BreakfastRate(age);
      SumRatesPrefix(ages, i, BedRate);
      SumRatesPrefix(ages, i, BreakfastRate);
      i := i + 1;
    }
    assert ages[..i] == ages;
    p := ChildrenPrice(totalBedPrice * nights, totalBreakfastPrice * nights);
  }

  // ---------------------------------------------------------------------------
  // Properties of the sums

  /** The sum over one more age of a list. */
  lemma SumRatesPrefix(ages: seq<int>, i: nat, rate: int -> int)
    requires i < |ages|
    ensures SumRates(ages[..i + 1], rate) == SumRates(ages[..i], rate) + rate(ages[i])
  {
    assert ages[..i + 1][..i] == ages[..i];
  }

  lemma {:induction false} SumRatesNonNegative(ages: seq<int>, rate: int -> int)
    requires forall a :: rate(a) >= 0
    ensures SumRates(ages, rate) >= 0
  {
    if ages != [] {
      SumRatesNonNegative(ages[..|ages| - 1], rate);
    }
  }

  /** The bed total counts 20 per child aged 3 to 11 and 40 per child aged 12 to 17. */
  lemma {:induction false} BedByBands(ages: seq<int>)
    ensures SumRates(ages, BedRate) == 20 * CountBetween(ages, 3, 11) + 40 * CountBetween(ages, 12, 17)
  {
    if ages != [] {
      BedByBands(ages[..|ages| - 1]);
    }
  }

  /** The breakfast total counts 15 per child aged 6 to 12 and 18 per child above 12. */
  lemma {:induction false} BreakfastByBands(ages: seq<int>)
    ensures SumRates(ages, BreakfastRate) == 15 * CountBetween(ages, 6, 12) + 18 * CountAbove(ages, 12)
  {
    if ages != [] {
      BreakfastByBands(ages[..|ages| - 1]);
    }
  }

  /** The sum over a concatenation is the sum of the sums. */
  lemma {:induction false} SumRatesAppend(a: seq<int>, b: seq<int>, rate: int -> int)
    ensures SumRates(a + b, rate) == SumRates(a, rate) + SumRates(b, rate)
  {
    if b == [] {
      assert a + b == a;
    } else {
      var b' := b[..|b| - 1];
      assert (a + b)[..|a + b| - 1] == a + b';
      SumRatesAppend(a, b', rate);
    }
  }

  /** The sum over a list with one more age at the end. */
  lemma SumRatesSnoc(p: seq<int>, x: int, rate: int -> int)
    ensures SumRates(p + [x], rate) == SumRates(p, rate) + rate(x)
  {
    assert (p + [x])[..|p|] == p;
  }

  /** Taking one age out of the list takes its rate out of the sum. */
  lemma SumRatesRemove(p: seq<int>, x: int, q: seq<int>, rate: int -> int)
    ensures SumRates(p + [x] + q, rate) == SumRates(p + q, rate) + rate(x)
  {
    SumRatesAppend(p + [x], q, rate);
    SumRatesSnoc(p, x, rate);
    SumRatesAppend(p, q, rate);
  }

  /** The sums do not depend on the order of the ages. */
  lemma {:induction false} SumRatesPermutation(a: seq<int>, b: seq<int>, rate: int -> int)
    requires multiset(a) == multiset(b)
    ensures SumRates(a, rate) == SumRates(b, rate)
    decreases |a|
  {
    if a == [] {
      assert |b| == |multiset(b)| == 0;
    } else {
      var x := a[|a| - 1];
      var a' := a[..|a| - 1];
      assert a == a' + [x];
      assert x in multiset(b) by {
        assert x in multiset(a);
      }
      var i :| 0 <= i < |b| && b[i] == x;
      var b' := b[..i] + b[i + 1..];
      assert b == b[..i] + [x] + b[i + 1..];
      assert multiset(b) == multiset(b') + multiset{x};
      assert multiset(a) == multiset(a') + multiset{x};
      assert multiset(a') == multiset(b') by {
        assert multiset(a') == multiset(a) - multiset{x};
        assert multiset(b') == multiset(b) - multiset{x};
      }
      SumRatesPermutation(a', b', rate);
      SumRatesRemove(b[..i], x, b[i + 1..], rate);
    }
  }

  /** The surcharges count each child by age band: per night, 20 for each
      child aged 3 to 11 and 40 for each aged 12 to 17 in beds; 15 for each
      aged 6 to 12 and 18 for each above 12 in breakfasts. */
  lemma SurchargeByBands(childrenAges: Option<string>, nights: int)
    requires !NoSurcharge(childrenAges, nights)
    ensures var ages := ParseAges(childrenAges.value);
      var p := ChildrenSurcharge(childrenAges, nights);
      && p.bedPrice == (20 * CountBetween(ages, 3, 11) + 40 * CountBetween(ages, 12, 17)) * nights
      && p.breakfastPrice == (15 * CountBetween(ages, 6, 12) + 18 * CountAbove(ages, 12)) * nights
  {
    BedByBands(ParseAges(childrenAges.value));
    BreakfastByBands(ParseAges(childrenAges.value));
  }

  /** KeepNumbers keeps exactly the values of the tokens that parse. */
  lemma {:induction false} KeepNumbersKeeps(tokens: seq<string>)
    ensures forall a :: a in KeepNumbers(tokens) <==>
      exists j :: 0 <= j < |tokens| && ParseIntToken(tokens[j]) == Some(a)
  {
    if tokens != [] {
      KeepNumbersKeeps(tokens[1..]);
      forall a
        ensures a in KeepNumbers(tokens) <==> exists j :: 0 <= j < |tokens| && ParseIntToken(tokens[j]) == Some(a)
      {
        if exists j :: 0 <= j < |tokens| && ParseIntToken(tokens[j]) == Some(a) {
          var j :| 0 <= j < |tokens| && ParseIntToken(tokens[j]) == Some(a);
          if j > 0 {
            assert tokens[1..][j - 1] == tokens[j];
          }
        }
      }
    }
  }

  /** When every token parses, KeepNumbers keeps them all, each in its
      token's place; otherwise it keeps fewer. */
  lemma {:induction false} KeepNumbersAllParse(tokens: seq<string>)
    ensures |KeepNumbers(tokens)| == |tokens| <==> forall j :: 0 <= j < |tokens| ==> ParseIntToken(tokens[j]).Some?
    ensures |KeepNumbers(tokens)| == |tokens| ==>
      forall j :: 0 <= j < |tokens| ==> ParseIntToken(tokens[j]) == Some(KeepNumbers(tokens)[j])
  {
    if tokens != [] {
      KeepNumbersAllParse(tokens[1..]);
    }
  }

  /** The ages of a text are exactly the values of its comma-separated
      tokens that parse. */
  lemma ParseAgesKeeps(text: string)
    ensures forall a :: a in ParseAges(text) <==>
      exists j :: 0 <= j < |Split(text, ',')| && ParseIntToken(Split(text, ',')[j]) == Some(a)
  {
    assert ParseAges(text) == KeepNumbers(Split(text, ','));
    KeepNumbersKeeps(Split(text, ','));
  }

  /** KeepNumbers works token by token. */
  lemma {:induction false} KeepNumbersAppend(a: seq<string>, b: seq<string>)
    ensures KeepNumbers(a + b) == KeepNumbers(a) + KeepNumbers(b)
  {
    if a == [] {
      assert a + b == b;
    } else {
      assert (a + b)[1..] == a[1..] + b;
      KeepNumbersAppend(a[1..], b);
    }
  }

  // ---------------------------------------------------------------------------
  // Properties of the surcharge

  /** Reordering the children in the ages text does not change the surcharges. */
  lemma OrderDoesNotMatter(text1: string, text2: string, nights: int)
    requires text1 != "" && text2 != ""
    requires multiset(ParseAges(text1)) == multiset(ParseAges(text2))
    ensures ChildrenSurcharge(Some(text1), nights) == ChildrenSurcharge(Some(text2), nights)
  {
    SumRatesPermutation(ParseAges(text1), ParseAges(text2), BedRate);
    SumRatesPermutation(ParseAges(text1), ParseAges(text2), BreakfastRate);
  }

  /** A token that is not a number, added before or after the other tokens,
      is dropped without disturbing the ages that do parse. */
  lemma NonNumericTokenDropped(text: string, junk: string)
    requires ',' !in junk
    requires ParseIntToken(junk).None?
    ensures ParseAges(text + [','] + junk) == ParseAges(text)
    ensures ParseAges(junk + [','] + text) == ParseAges(text)
  {
    SplitConcat(text, ',', junk);
    SplitNoSep(junk, ',');
    KeepNumbersAppend(Split(text, ','), [junk]);
    assert KeepNumbers([junk]) == [];
    SplitAround(junk, ',', text);
    KeepNumbersAppend([junk], Split(text, ','));
  }

  /** One child written as plain digits pays its bed and breakfast rates for
      every night of the stay. */
  lemma OneChild(age: nat, nights: int)
    requires nights > 0
    ensures ChildrenSurcharge(Some(ShowNat(age)), nights)
         == ChildrenPrice(BedRate(age) * nights, BreakfastRate(age) * nights)
  {
    var s := ShowNat(age);
    SplitNoSep(s, ',');
    ParseShowNat(age);
    assert ParseAges(s) == [age];
    assert [age][..0] == [];
    assert SumRates([age], BedRate) == BedRate(age);
    assert SumRates([age], BreakfastRate) == BreakfastRate(age);
  }

  /** A twelve-year-old pays the 12 to 17 bed rate and the 6 to 12 breakfast rate. */
  lemma TwelveYearOld(nights: int)
    requires nights > 0
    ensures ChildrenSurcharge(Some("12"), nights) == ChildrenPrice(40 * nights, 15 * nights)
  {
    assert ShowNat(12) == "12" by {
      assert ShowNat(1) == "1";
    }
    OneChild(12, nights);
  }
}
