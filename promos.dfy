/**
 * The promos service: the first entry of the content store's product entries
 * carries a `promo_section` list, which becomes an ordered list of
 * `{text, order}` promos returned together with the requested sku.
 */
module Promos {
  import opened Wrappers

  // ---------------------------------------------------------------------------
  // Data model
  // ---------------------------------------------------------------------------

  datatype PromoText = PromoText(title: string)

  /** One element of `promo_section`; its `promo_text` may be missing. */
  datatype PromoItem = PromoItem(promoText: Option<PromoText>)

  /** One element of `entries`; its `promo_section` may be missing. */
  datatype Entry = Entry(promoSection: Option<seq<PromoItem>>)

  datatype Promo = Promo(text: string, order: int)

  /** What `getPromos` resolves to. */
  datatype PromoList = PromoList(sku: string, promos: seq<Promo>)

  /** The message `getPromos` rejects with when the response cannot be read. */
  const FetchPromosError: string := "Unable to fetch promos"

  // ---------------------------------------------------------------------------
  // Operations
  // ---------------------------------------------------------------------------

  /** Every item has a `promo_text` to read the title from. */
  predicate AllHaveText(items: seq<PromoItem>) {
    forall i :: 0 <= i < |items| ==> items[i].promoText.Some?
  }

  /**
   * The map over `promo_section`, applied to the items from position
   * `start` on, where `start` is the index of the first of them; None when
   * some item has no `promo_text` (reading its title throws).
   */
  function ShapeFrom(items: seq<PromoItem>, start: nat): (r: Option<seq<Promo>>)
    ensures r.Some? <==> AllHaveText(items)
    ensures r.Some? ==> |r.value| == |items|
    ensures r.Some? ==> forall i :: 0 <= i < |items| ==>
      r.value[i] == Promo(items[i].promoText.value.title, start + i + 1)
    decreases |items|
  {
    if items == [] then Some([])
    else if items[0].promoText.None? then None
    else
      var rest := ShapeFrom(items[1..], start + 1);
      assert AllHaveText(items) <==> AllHaveText(items[1..]) by {
        assert forall i :: 0 <= i < |items[1..]| ==> items[1..][i] == items[i + 1];
      }
      if rest.None? then None
      else Some([Promo(items[0].promoText.value.title, start + 1)] + rest.value)
  }

  /** The promos of one `promo_section`, numbered from 1. */
  function ShapePromos(items: seq<PromoItem>): Option<seq<Promo>> {
    ShapeFrom(items, 0)
  }

  /**
   * `getPromos(sku)` on the `entries` of the response: an error when there is
   * no first entry, it lacks `promo_section`, or a promo lacks `promo_text`.
   */
  function GetPromos(sku: string, entries: seq<Entry>): (r: Result<PromoList>)
    ensures r.Err? ==> r.message == FetchPromosError
    ensures r.Ok? ==> r.value.sku == sku
    ensures r.Ok? <==>
      |entries| > 0 && entries[0].promoSection.Some? && AllHaveText(entries[0].promoSection.value)
  {
    if |entries| == 0 || entries[0].promoSection.None? then Err(FetchPromosError)
    else
      var promos := ShapePromos(entries[0].promoSection.value);
      if promos.None? then Err(FetchPromosError) else Ok(PromoList(sku, promos.value))
  }

  // ---------------------------------------------------------------------------
  // Properties
  // ---------------------------------------------------------------------------

  /**
   * One promo per item of the first entry's `promo_section`, in order: the
   * i-th carries the i-th title and order i + 1.
   */
  lemma GetPromosShape(sku: string, entries: seq<Entry>)
    requires GetPromos(sku, entries).Ok?
    ensures var items := entries[0].promoSection.value;
      var promos := GetPromos(sku, entries).value.promos;
      && |promos| == |items|
      && forall i :: 0 <= i < |items| ==>
           promos[i].text == items[i].promoText.value.title && promos[i].order == i + 1
  {
  }

  /** The orders are exactly 1, 2, ..., n, so they strictly increase. */
  lemma PromoOrdersIncrease(sku: string, entries: seq<Entry>)
    requires GetPromos(sku, entries).Ok?
    ensures var promos := GetPromos(sku, entries).value.promos;
      forall i, j :: 0 <= i < j < |promos| ==> 1 <= promos[i].order < promos[j].order <= |promos|
  {
  }

  /** Only the first entry is read: entries after it never change the result. */
  lemma GetPromosReadsFirstEntryOnly(sku: string, entries: seq<Entry>, later: seq<Entry>)
    requires |entries| > 0
    ensures GetPromos(sku, entries + later) == GetPromos(sku, entries[..1])
  {
    assert (entries + later)[0] == entries[0] == entries[..1][0];
  }
}
