/**
 The market catalog: `get_gdax_markets` turns the exchange's product records
 into the list of market identifiers, in the order the exchange lists them.
 */
module Markets {
  import opened Wrappers

  /** A product record as the exchange returns it; only its 'id' is used. */
  datatype Product = Product(fields: map<string, string>)

  const IdKey := "id"

  predicate HasId(p: Product) { IdKey in p.fields }

  /** The identifiers of `products`, or the KeyError raised at the first
      record without one. */
  function MarketIds(products: seq<Product>): (r: Result<seq<string>, Error>)
    ensures r.Ok? <==> forall j :: 0 <= j < |products| ==> HasId(products[j])
    ensures r.Err? ==> r.error == MissingProductId
    ensures r.Ok? ==> |r.value| == |products|
                      && forall j :: 0 <= j < |products| ==> r.value[j] == products[j].fields[IdKey]
    decreases |products|
  {
    if products == [] then Ok([])
    else
      var n := |products| - 1;
      match MarketIds(products[..n])
      case Err(e) => Err(e)
      case Ok(ids) =>
        if HasId(products[n]) then Ok(ids + [products[n].fields[IdKey]])
        else Err(MissingProductId)
  }

  /** `get_gdax_markets`: appends each product's id in turn. */
  method GetMarkets(products: seq<Product>) returns (r: Result<seq<string>, Error>)
    ensures r == MarketIds(products)
    ensures r.Ok? <==> forall j :: 0 <= j < |products| ==> HasId(products[j])
    ensures r.Err? ==> r.error == MissingProductId
    ensures r.Ok? ==> |r.value| == |products|
                      && forall j :: 0 <= j < |products| ==> r.value[j] == products[j].fields[IdKey]
  {
    var markets: seq<string> := [];
    var i := 0;
    while i < |products|
      invariant 0 <= i <= |products|
      invariant forall j :: 0 <= j < i ==> HasId(products[j])
      invariant |markets| == i
      invariant forall j :: 0 <= j < i ==> markets[j] == products[j].fields[IdKey]
    {
      if !HasId(products[i]) {
        return Err(MissingProductId);
      }
      markets := markets + [products[i].fields[IdKey]];
      i := i + 1;
    }
    assert markets == MarketIds(products).value;
    return Ok(markets);
  }
}
