/**
 The four tools the sales agent may call: price comparison, car details with
 images, the stock list and the client-info form. Each builds the text the
 agent sees from the catalog, a search reply or the form fields.
 */
module Tools {
  import opened Wrappers
  import opened Ascii
  import opened Text
  import opened NumberFormat
  import opened Catalog
  import opened Search

  // ---------------------------------------------------------------------------
  // compare_prices

  /** The fixed apology, written in two pieces so that proofs can see its first character. */
  const NoPriceInfo := "Could not retrieve " + "competitor price information at this time."

  function PriceQuery(model: string): string
  {
    model + " price comparison"
  }

  /** The answer built from the first search result, ending in a markdown link to it. */
  function PriceSentence(model: string, first: Item): string
  {
    Interpolate(
      ["Other dealers are selling the ", " at these prices: ", " Check it out here: [", "](", ")"],
      [model, first.content, first.url, first.url])
  }

  /** The markdown link to a result: its URL as both the link text and the target. */
  function Link(url: string): string
  {
    "[" + url + "](" + url + ")"
  }

  /** s ends with suffix. */
  predicate EndsWith(s: string, suffix: string)
  {
    |suffix| <= |s| && s[|s| - |suffix|..] == suffix
  }

  /** The price sentence closes with the markdown link to the result it quotes. */
  lemma PriceSentenceEndsWithLink(model: string, first: Item)
    ensures EndsWith(PriceSentence(model, first), Link(first.url))
  {
    var url := first.url;
    InterpolateFour("Other dealers are selling the ", " at these prices: ", " Check it out here: [", "](", ")",
                    model, first.content, url, url);
    var pre := "Other dealers are selling the " + model + " at these prices: " + first.content;
    assert " Check it out here: [" == " Check it out here: " + "[";
    assert PriceSentence(model, first) == (pre + " Check it out here: ") + Link(url);
  }

  /**
   compare_prices: quotes the first search result when the reply is a dict
   with results; every other reply, the text of a failed search included,
   gives the fixed apology.
   */
  function ComparePrices(client: Client, model: string): (r: string)
    ensures var reply := SearchWithImages(client, PriceQuery(model));
      && (!HasResults(reply) ==> r == NoPriceInfo)
      && (HasResults(reply) ==>
            var first := reply.response.results[0];
            && "Other dealers are selling the " <= r
            && ContainsInOrder(r, [model, first.content, first.url, first.url])
            && EndsWith(r, Link(first.url)))
  {
    var reply := SearchWithImages(client, PriceQuery(model));
    if HasResults(reply) then
      var first := reply.response.results[0];
      InterpolateInOrder(
        ["Other dealers are selling the ", " at these prices: ", " Check it out here: [", "](", ")"],
        [model, first.content, first.url, first.url]);
      PriceSentenceEndsWithLink(model, first);
      PriceSentence(model, first)
    else
      NoPriceInfo
  }

  /** The apology begins with 'C', where every quoted answer begins with 'O'. */
  lemma NoPriceInfoStart()
    ensures "C" <= NoPriceInfo
  {
    assert "C" <= "Could not retrieve ";
  }

  /** A search with results never yields the apology. */
  lemma ComparePricesHitNotApology(client: Client, model: string)
    requires HasResults(SearchWithImages(client, PriceQuery(model)))
    ensures ComparePrices(client, model) != NoPriceInfo
  {
    var r := ComparePrices(client, model);
    assert "Other dealers are selling the " <= r;
    NoPriceInfoStart();
    assert r[0] == 'O' && NoPriceInfo[0] == 'C';
  }

  /** The apology is given exactly when the search brought no usable result. */
  lemma ComparePricesApologyIff(client: Client, model: string)
    ensures ComparePrices(client, model) == NoPriceInfo
      <==> !HasResults(SearchWithImages(client, PriceQuery(model)))
  {
    if HasResults(SearchWithImages(client, PriceQuery(model))) {
      ComparePricesHitNotApology(client, model);
    }
  }

  /**
   A search that raises gives the fixed apology: the error text is a string,
   not a dict, so the description of the failure is not passed on.
   */
  lemma ComparePricesOnSearchError(client: Client, model: string)
    requires client(PriceQuery(model)).Raised?
    ensures ComparePrices(client, model) == NoPriceInfo
  {
  }

  // ---------------------------------------------------------------------------
  // get_car_details

  /** The returned dict: the text to show and the image URLs to show beneath it. */
  datatype CarDetails = CarDetails(details: string, images: seq<string>)

  function ImageQuery(model: string): string
  {
    model + " car"
  }

  /**
   The four f-strings of the answer on a hit, joined. The "$" that precedes
   the price in the text is kept here with the formatted price.
   */
  function DetailsSentence(model: string, entry: Entry): string
  {
    Interpolate(
      ["Absolutely! We have a ", " available. Details: ", ". Price: ", ". Benefits: ", "."],
      [Capitalize(model), entry.details, "$" + FormatThousands(entry.price), entry.benefits])
  }

  function NotInStock(model: string): string
  {
    Interpolate(["Sorry, the ", " is not currently in our stock."], [Capitalize(model)])
  }

  /** The image URLs of a reply, kept only when it is a dict with a non-empty "images" list. */
  function ImagesOf(reply: Reply): seq<string>
  {
    if HasImages(reply) then reply.response.images else []
  }

  /**
   get_car_details: looks the lower-cased name up in the stock. On a hit it
   describes the entry and searches for images; on a miss it apologises and
   searches for nothing.
   */
  function GetCarDetails(stock: Stock, client: Client, model: string): (r: CarDetails)
    ensures Lookup(stock, Lower(model)).Some? ==>
      var entry := Lookup(stock, Lower(model)).value;
      var reply := SearchWithImages(client, ImageQuery(model));
      && ContainsInOrder(r.details,
           [Capitalize(model), entry.details, "$" + FormatThousands(entry.price), entry.benefits])
      && r.images == (if reply.Dict? then reply.response.images else [])
    ensures Lookup(stock, Lower(model)).None? ==>
      r == CarDetails("Sorry, the " + Capitalize(model) + " is not currently in our stock.", [])
  {
    match Lookup(stock, Lower(model))
    case Some(entry) =>
      InterpolateInOrder(
        ["Absolutely! We have a ", " available. Details: ", ". Price: ", ". Benefits: ", "."],
        [Capitalize(model), entry.details, "$" + FormatThousands(entry.price), entry.benefits]);
      CarDetails(DetailsSentence(model, entry), ImagesOf(SearchWithImages(client, ImageQuery(model))))
    case None =>
      InterpolateOne("Sorry, the ", Capitalize(model), " is not currently in our stock.");
      CarDetails(NotInStock(model), [])
  }

  /** The details text does not depend on the case in which the name was typed. */
  lemma GetCarDetailsIgnoresCase(stock: Stock, client: Client, a: string, b: string)
    requires Lower(a) == Lower(b)
    ensures GetCarDetails(stock, client, a).details == GetCarDetails(stock, client, b).details
  {
    CapitalizeIgnoresCase(a, b);
  }

  /**
   The search is consulted only on a hit, and then only for the image query:
   two clients that agree on that query, or any two clients on a miss, give
   the same result.
   */
  lemma GetCarDetailsSearchUse(stock: Stock, c1: Client, c2: Client, model: string)
    requires Lookup(stock, Lower(model)).None? || c1(ImageQuery(model)) == c2(ImageQuery(model))
    ensures GetCarDetails(stock, c1, model) == GetCarDetails(stock, c2, model)
  {
  }

  /**
   In a catalog with distinct lower-case keys, any spelling of a stocked name
   finds it, and the details quote its price as f"{price:,}": a well-grouped
   string that reads back as the price.
   */
  lemma GetCarDetailsStocked(stock: Stock, client: Client, i: nat, model: string)
    requires UniqueKeys(stock) && LowerKeys(stock) && i < |stock|
    requires Lower(model) == Lower(stock[i].0)
    ensures Lookup(stock, Lower(model)) == Some(stock[i].1)
    ensures var entry := stock[i].1;
      && ContainsInOrder(GetCarDetails(stock, client, model).details,
           [Capitalize(model), entry.details, "$" + FormatThousands(entry.price), entry.benefits])
      && WellGrouped(FormatThousands(entry.price))
      && RemoveCommas(FormatThousands(entry.price)) == DecimalDigits(entry.price)
      && ParseDecimal(DecimalDigits(entry.price)) == entry.price
  {
    LookupAnyCase(stock, i, model);
    FormatThousandsRoundTrip(stock[i].1.price);
  }

  /**
   In the shipped catalog every stocked name, typed in any case, is found, and
   the details quote its price with thousands separators.
   */
  lemma GetCarDetailsCarStock(client: Client, i: nat, model: string)
    requires i < |CarStock| && Lower(model) == Lower(CarStock[i].0)
    ensures Lookup(CarStock, Lower(model)) == Some(CarStock[i].1)
    ensures var entry := CarStock[i].1;
      && ContainsInOrder(GetCarDetails(CarStock, client, model).details,
           [Capitalize(model), entry.details, "$" + FormatThousands(entry.price), entry.benefits])
      && WellGrouped(FormatThousands(entry.price))
      && RemoveCommas(FormatThousands(entry.price)) == DecimalDigits(entry.price)
      && ParseDecimal(DecimalDigits(entry.price)) == entry.price
  {
    CarStockWellFormed();
    GetCarDetailsStocked(CarStock, client, i, model);
  }

  // ---------------------------------------------------------------------------
  // list_available_cars

  const EmptyStock := "Our stock is currently empty."
  const StockIntro := "We currently have the following cars in stock: "

  /** The capitalised names, in catalog order. */
  function CapitalizedNames(stock: Stock): (r: seq<string>)
    ensures |r| == |stock|
    ensures forall i :: 0 <= i < |stock| ==> r[i] == Capitalize(stock[i].0)
  {
    seq(|stock|, i requires 0 <= i < |stock| => Capitalize(stock[i].0))
  }

  /** list_available_cars */
  function ListAvailableCars(stock: Stock): (r: string)
    ensures r == EmptyStock <==> |stock| == 0
  {
    if |stock| == 0 then EmptyStock
    else
      var r := Interpolate([StockIntro, "."], [Join(CapitalizedNames(stock), ", ")]);
      assert StockIntro <= r && |EmptyStock| < |StockIntro|;
      r
  }

  /** Reads the list of names back out of a stock message; None for any other text. */
  function ListedNames(message: string): Option<seq<string>>
  {
    if |message| > |StockIntro| && message[..|StockIntro|] == StockIntro && message[|message| - 1] == '.'
    then Some(Split(message[|StockIntro|..|message| - 1], ", "))
    else None
  }

  /**
   The stock message lists every name of the stock once, capitalised and in
   catalog order, provided no name holds a comma; the empty-stock message
   lists nothing.
   */
  lemma ListAvailableCarsRoundTrip(stock: Stock)
    requires forall i :: 0 <= i < |stock| ==> ',' !in stock[i].0
    ensures |stock| > 0 ==> ListedNames(ListAvailableCars(stock)) == Some(CapitalizedNames(stock))
    ensures |stock| == 0 ==> ListedNames(ListAvailableCars(stock)).None?
  {
    if |stock| > 0 {
      var names := CapitalizedNames(stock);
      SplitJoin(names, ", ");
      var body := Join(names, ", ");
      InterpolateOne(StockIntro, body, ".");
      var m := StockIntro + body + ".";
      assert m[..|StockIntro|] == StockIntro;
      assert m[|StockIntro|..|m| - 1] == body;
    } else {
      assert |EmptyStock| <= |StockIntro|;
    }
  }

  /**
   From a catalog with distinct lower-case keys, the listed names determine
   the keys: lowering them gives the keys back in order, and no name is
   listed twice.
   */
  lemma CapitalizedNamesRecoverKeys(stock: Stock)
    requires UniqueKeys(stock) && LowerKeys(stock)
    ensures forall i :: 0 <= i < |stock| ==> Lower(CapitalizedNames(stock)[i]) == stock[i].0
    ensures forall i, j :: 0 <= i < j < |stock| ==> CapitalizedNames(stock)[i] != CapitalizedNames(stock)[j]
  {
    var names := CapitalizedNames(stock);
    forall i | 0 <= i < |stock| ensures Lower(names[i]) == stock[i].0 {
      LowerFixedIff(stock[i].0);
    }
    forall i, j | 0 <= i < j < |stock| ensures names[i] != names[j] {
      if names[i] == names[j] {
        CapitalizeInjectiveOnLower(stock[i].0, stock[j].0);
      }
    }
  }

  /** The shipped catalog is listed in full: twenty distinct names in table order. */
  lemma ListCarStock()
    ensures ListedNames(ListAvailableCars(CarStock)) == Some(CapitalizedNames(CarStock))
    ensures |CapitalizedNames(CarStock)| == 20
    ensures forall i :: 0 <= i < 20 ==> Lower(CapitalizedNames(CarStock)[i]) == CarStock[i].0
    ensures forall i, j :: 0 <= i < j < 20 ==> CapitalizedNames(CarStock)[i] != CapitalizedNames(CarStock)[j]
  {
    CarStockWellFormed();
    ListAvailableCarsRoundTrip(CarStock);
    CapitalizedNamesRecoverKeys(CarStock);
  }

  // ---------------------------------------------------------------------------
  // collect_client_info (the formatting after the three fields are read)

  /** Some text with the three fields only when none of them is empty. */
  function CollectClientInfo(name: string, email: string, phone: string): (r: Option<string>)
    ensures r.None? <==> name == [] || email == [] || phone == []
    ensures r.Some? ==> ContainsInOrder(r.value, [name, email, phone])
  {
    if name != [] && email != [] && phone != [] then
      InterpolateInOrder(["Client info: Name: ", ", Email: ", ", Phone: ", ""], [name, email, phone]);
      Some(Interpolate(["Client info: Name: ", ", Email: ", ", Phone: ", ""], [name, email, phone]))
    else
      None
  }
}
