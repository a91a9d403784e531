/**
 * Order valuation: the billable analyses of an order, its subtotal, its
 * total with VAT, the VAT itself and the default member discount.
 * Money is exact (`real`): the source computes with Decimal and never rounds.
 */
module Valuation {
  import opened Wrappers
  import opened AnalysisTypes

  predicate IsBillable(a: Analysis) {
    a.state != NotRequested
  }

  /** The analyses not in state not_requested, in their original order. */
  function Billable(s: seq<Analysis>): (r: seq<Analysis>)
  {
    if s == [] then []
    else if IsBillable(s[|s| - 1]) then Billable(s[..|s| - 1]) + [s[|s| - 1]]
    else Billable(s[..|s| - 1])
  }

  /** Price of an item, 0 when the service or its price is missing. */
  function PriceOrZero(a: Analysis): real {
    match a.service
    case None => 0.0
    case Some(svc) => match svc.price case None => 0.0 case Some(p) => p
  }

  function VatOrZero(svc: Service): real {
    match svc.vat case None => 0.0 case Some(v) => v
  }

  function ServicePrice(svc: Service): real {
    match svc.price case None => 0.0 case Some(p) => p
  }

  /** Sum of the items' prices. */
  function NetSum(items: seq<Analysis>): real {
    if items == [] then 0.0 else NetSum(items[..|items| - 1]) + PriceOrZero(items[|items| - 1])
  }

  /** Sum of price * (1 + VAT) over items that all have a service. */
  function GrossSum(items: seq<Analysis>): real
    requires AllServiced(items)
  {
    if items == [] then 0.0
    else
      var svc := items[|items| - 1].service.value;
      GrossSum(items[..|items| - 1]) + ServicePrice(svc) * (1.0 + VatOrZero(svc))
  }

  /** Sum of price * VAT over items that all have a service. */
  function VatSum(items: seq<Analysis>): real
    requires AllServiced(items)
  {
    if items == [] then 0.0
    else
      var svc := items[|items| - 1].service.value;
      VatSum(items[..|items| - 1]) + ServicePrice(svc) * VatOrZero(svc)
  }

  /** getSubtotal: the sum of the billable items' prices. */
  function Subtotal(analyses: seq<Analysis>): (r: real)
    ensures Billable(analyses) == [] ==> r == 0.0
    ensures (forall a :: a in analyses ==> PriceOrZero(a) >= 0.0) ==> r >= 0.0
  {
    BillableExact(analyses);
    NetSumNonNegative(Billable(analyses));
    NetSum(Billable(analyses))
  }

  /** getTotalPrice as a value: 0 as soon as a billable item lacks a service. */
  function Total(analyses: seq<Analysis>): real {
    var b := Billable(analyses);
    if AllServiced(b) then GrossSum(b) else 0.0
  }

  /** getVAT: total minus subtotal, which is the sum of price * VAT when
      every billable item has its service, and minus the subtotal when the
      total aborts to 0. */
  function Vat(analyses: seq<Analysis>): (r: real)
    ensures AllServiced(Billable(analyses)) ==> r == VatSum(Billable(analyses))
    ensures !AllServiced(Billable(analyses)) ==> r == -Subtotal(analyses)
  {
    var b := Billable(analyses);
    if AllServiced(b) then
      GrossIsNetPlusVat(b);
      Total(analyses) - Subtotal(analyses)
    else
      Total(analyses) - Subtotal(analyses)
  }

  /** getBillableItems */
  method BillableItems(analyses: seq<Analysis>) returns (items: seq<Analysis>)
    ensures items == Billable(analyses)
    ensures forall a :: a in items <==> a in analyses && a.state != NotRequested
  {
    items := [];
    var i := 0;
    while i < |analyses|
      invariant 0 <= i <= |analyses|
      invariant items == Billable(analyses[..i])
      invariant forall a :: a in items <==> a in analyses[..i] && a.state != NotRequested
    {
      assert analyses[..i + 1][..i] == analyses[..i];
      if analyses[i].state != NotRequested {
        items := items + [analyses[i]];
      }
      i := i + 1;
    }
    assert analyses[..i] == analyses;
  }

  /** getTotalPrice: the running sum with its early return. */
  method TotalPrice(analyses: seq<Analysis>) returns (total: real)
    ensures total == Total(analyses)
  {
    var billable := BillableItems(analyses);
    total := 0.0;
    var i := 0;
    while i < |billable|
      invariant 0 <= i <= |billable|
      invariant AllServiced(billable[..i])
      invariant total == GrossSum(billable[..i])
    {
      assert billable[..i + 1][..i] == billable[..i];
      var service := billable[i].service;
      if service.None? {
        assert !AllServiced(billable);
        return 0.0;
      }
      var itemPrice := ServicePrice(service.value);
      var vat := VatOrZero(service.value);
      total := total + itemPrice * (1.0 + vat);
      i := i + 1;
    }
    assert billable[..i] == billable;
  }

  /** getDefaultMemberDiscount: None when the order has no eligibility flag,
      the configured rate when the discount applies, "0.00" otherwise. */
  function DefaultMemberDiscount(hasFlag: bool, applies: bool, configuredRate: string): (r: Option<string>)
    ensures r.None? <==> !hasFlag
    ensures hasFlag && applies ==> r == Some(configuredRate)
    ensures hasFlag && !applies ==> r == Some("0.00")
  {
    if !hasFlag then None
    else if applies then Some(configuredRate)
    else Some("0.00")
  }

  // ---------------------------------------------------------------------
  // Properties of the valuation

  /** Filtering distributes over concatenation. */
  lemma {:induction false} BillableConcat(s: seq<Analysis>, t: seq<Analysis>)
    ensures Billable(s + t) == Billable(s) + Billable(t)
    decreases |t|
  {
    if t == [] {
      assert s + t == s;
    } else {
      var u := t[..|t| - 1];
      assert (s + t)[..|s + t| - 1] == s + u;
      assert (s + t)[|s + t| - 1] == t[|t| - 1];
      BillableConcat(s, u);
    }
  }

  /** Exactly the analyses whose state is not not_requested survive, in order. */
  lemma {:induction false} BillableExact(s: seq<Analysis>)
    ensures forall a :: a in Billable(s) <==> a in s && a.state != NotRequested
    ensures |Billable(s)| <= |s|
    ensures (forall i :: 0 <= i < |s| ==> s[i].state != NotRequested) ==> Billable(s) == s
    decreases |s|
  {
    if s != [] {
      var p := s[..|s| - 1];
      BillableExact(p);
      assert s == p + [s[|s| - 1]];
      if (forall i :: 0 <= i < |s| ==> s[i].state != NotRequested) {
        assert forall i :: 0 <= i < |p| ==> p[i].state != NotRequested by {
          forall i | 0 <= i < |p| ensures p[i].state != NotRequested {
            assert p[i] == s[i];
          }
        }
      }
    }
  }

  lemma {:induction false} NetSumConcat(s: seq<Analysis>, t: seq<Analysis>)
    ensures NetSum(s + t) == NetSum(s) + NetSum(t)
    decreases |t|
  {
    if t != [] {
      var u := t[..|t| - 1];
      assert (s + t)[..|s + t| - 1] == s + u;
      assert (s + t)[|s + t| - 1] == t[|t| - 1];
      NetSumConcat(s, u);
    } else {
      assert s + t == s;
    }
  }

  lemma AllServicedConcat(s: seq<Analysis>, t: seq<Analysis>)
    ensures AllServiced(s + t) <==> AllServiced(s) && AllServiced(t)
  {
    if AllServiced(s) && AllServiced(t) {
      forall i | 0 <= i < |s + t| ensures (s + t)[i].service.Some? {
        if i >= |s| { assert (s + t)[i] == t[i - |s|]; }
      }
    }
    if AllServiced(s + t) {
      forall i | 0 <= i < |s| ensures s[i].service.Some? {
        assert (s + t)[i] == s[i];
      }
      forall i | 0 <= i < |t| ensures t[i].service.Some? {
        assert (s + t)[|s| + i] == t[i];
      }
    }
  }

  lemma {:induction false} GrossSumConcat(s: seq<Analysis>, t: seq<Analysis>)
    requires AllServiced(s) && AllServiced(t)
    ensures AllServiced(s + t) && GrossSum(s + t) == GrossSum(s) + GrossSum(t)
    decreases |t|
  {
    AllServicedConcat(s, t);
    if t != [] {
      var u := t[..|t| - 1];
      assert (s + t)[..|s + t| - 1] == s + u;
      assert (s + t)[|s + t| - 1] == t[|t| - 1];
      AllServicedConcat(u, [t[|t| - 1]]);
      assert u + [t[|t| - 1]] == t;
      GrossSumConcat(s, u);
    } else {
      assert s + t == s;
    }
  }

  /** Adding or removing a not_requested analysis anywhere in the order
      changes neither the subtotal nor the total (nor, hence, the VAT). */
  lemma NotRequestedIsIgnored(s1: seq<Analysis>, a: Analysis, s2: seq<Analysis>)
    requires a.state == NotRequested
    ensures Subtotal(s1 + [a] + s2) == Subtotal(s1 + s2)
    ensures Total(s1 + [a] + s2) == Total(s1 + s2)
    ensures Vat(s1 + [a] + s2) == Vat(s1 + s2)
  {
    BillableConcat(s1 + [a], s2);
    BillableConcat(s1, [a]);
    BillableConcat(s1, s2);
    assert Billable([a]) == [];
    assert Billable(s1 + [a]) == Billable(s1);
  }

  /** Appending a billable analysis adds exactly its price (0 when missing)
      to the subtotal, so the subtotal never drops when a non-negative
      item is added. */
  lemma SubtotalAppend(s: seq<Analysis>, a: Analysis)
    requires a.state != NotRequested
    ensures Subtotal(s + [a]) == Subtotal(s) + PriceOrZero(a)
    ensures PriceOrZero(a) >= 0.0 ==> Subtotal(s + [a]) >= Subtotal(s)
  {
    BillableConcat(s, [a]);
    assert Billable([a]) == [a];
    NetSumConcat(Billable(s), [a]);
    assert NetSum([a]) == PriceOrZero(a) by {
      assert [a][..0] == [];
    }
  }

  lemma {:induction false} NetSumNonNegative(items: seq<Analysis>)
    ensures (forall a :: a in items ==> PriceOrZero(a) >= 0.0) ==> NetSum(items) >= 0.0
    decreases |items|
  {
    if items != [] {
      var p := items[..|items| - 1];
      assert forall a :: a in p ==> a in items;
      NetSumNonNegative(p);
      assert items[|items| - 1] in items;
    }
  }

  predicate NonNegativeRates(items: seq<Analysis>) {
    forall i :: 0 <= i < |items| ==>
      items[i].service.Some? ==> ServicePrice(items[i].service.value) >= 0.0 && VatOrZero(items[i].service.value) >= 0.0
  }

  /** With every service present, the VAT is the sum of each item's
      price * VAT, and it is non-negative when prices and rates are. */
  lemma {:induction false} GrossIsNetPlusVat(items: seq<Analysis>)
    requires AllServiced(items)
    ensures GrossSum(items) == NetSum(items) + VatSum(items)
    ensures NonNegativeRates(items) ==> VatSum(items) >= 0.0
    decreases |items|
  {
    if items != [] {
      var p := items[..|items| - 1];
      var svc := items[|items| - 1].service.value;
      assert AllServiced(p) by {
        forall i | 0 <= i < |p| ensures p[i].service.Some? { assert p[i] == items[i]; }
      }
      GrossIsNetPlusVat(p);
      assert PriceOrZero(items[|items| - 1]) == ServicePrice(svc);
      assert ServicePrice(svc) * (1.0 + VatOrZero(svc)) == ServicePrice(svc) + ServicePrice(svc) * VatOrZero(svc);
      if NonNegativeRates(items) {
        assert NonNegativeRates(p) by {
          forall i | 0 <= i < |p| ensures p[i] == items[i] { }
        }
        assert ServicePrice(svc) >= 0.0 && VatOrZero(svc) >= 0.0;
      }
    }
  }

  /** getVAT: when every billable analysis has its service, VAT is the sum of
      the items' price * rate, hence VAT >= 0 and total >= subtotal for
      non-negative prices and rates; when one lacks its service the total
      aborts to 0 and VAT is minus the subtotal. */
  lemma VatMeaning(analyses: seq<Analysis>)
    ensures AllServiced(Billable(analyses)) ==> Vat(analyses) == VatSum(Billable(analyses))
    ensures AllServiced(Billable(analyses)) && NonNegativeRates(Billable(analyses)) ==>
              Vat(analyses) >= 0.0 && Total(analyses) >= Subtotal(analyses)
    ensures !AllServiced(Billable(analyses)) ==> Total(analyses) == 0.0 && Vat(analyses) == -Subtotal(analyses)
  {
    var b := Billable(analyses);
    if AllServiced(b) {
      GrossIsNetPlusVat(b);
    }
  }
}
