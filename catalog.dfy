/**
 The in-memory car catalog: a fixed table from lower-case model name to
 price, details and benefits, kept in the order the table lists it, and
 Python's dict lookup on it.
 */
module Catalog {
  import opened Wrappers
  import opened Ascii

  datatype Entry = Entry(price: nat, details: string, benefits: string)

  /** A dict from model name to entry, as its (key, value) pairs in insertion order. */
  type Stock = seq<(string, Entry)>

  /** The catalog the assistant sells from; it is never changed. */
  const CarStock: Stock :=
    [
      ("toyota corolla", Entry(23000, "2023 Toyota Corolla, excellent condition, low mileage, sunroof.", "Reliable, fuel-efficient, perfect for commutes.")),
      ("honda vezel", Entry(26000, "2022 Honda Vezel, hybrid, well-maintained, navigation system.", "Eco-friendly, spacious, advanced features.")),
      ("ford mustang", Entry(35000, "2021 Ford Mustang, sports edition, powerful engine, leather interior.", "Performance-driven, stylish, thrilling to drive.")),
      ("nissan rogue", Entry(28000, "2023 Nissan Rogue, AWD, family-friendly, spacious cargo.", "Safe, comfortable, ideal for road trips.")),
      ("chevrolet silverado", Entry(40000, "2020 Chevrolet Silverado, truck, heavy duty, tow package.", "Powerful, durable, perfect for work or play.")),
      ("mercedes-benz c-class", Entry(45000, "2022 Mercedes-Benz C-Class, luxury sedan, premium sound, advanced safety.", "Luxurious, refined, top-tier performance.")),
      ("bmw 3 series", Entry(42000, "2023 BMW 3 Series, sports sedan, dynamic handling, tech-packed.", "Sporty, agile, cutting-edge technology.")),
      ("audi a4", Entry(43000, "2022 Audi A4, premium sedan, quattro AWD, virtual cockpit.", "Elegant, all-weather capable, sophisticated design.")),
      ("volkswagen golf", Entry(25000, "2023 Volkswagen Golf, hatchback, sporty, fuel-efficient.", "Practical, fun to drive, economical.")),
      ("hyundai tucson", Entry(27000, "2023 Hyundai Tucson, SUV, modern design, smart features.", "Stylish, spacious, feature-rich.")),
      ("kia sportage", Entry(26500, "2022 Kia Sportage, SUV, reliable, comfortable ride.", "Dependable, comfortable, value-packed.")),
      ("subaru outback", Entry(30000, "2023 Subaru Outback, AWD, adventure-ready, spacious interior.", "Rugged, safe, perfect for outdoor enthusiasts.")),
      ("lexus rx", Entry(50000, "2022 Lexus RX, smooth ride, premium features.", "Luxurious, comfortable, exceptional reliability.")),
      ("tesla model 3", Entry(48000, "2023 Tesla Model 3, electric sedan, autopilot, long range.", "Electric, high-tech, environmentally friendly.")),
      ("porsche 911", Entry(120000, "2021 Porsche 911, sports car, high performance, iconic design.", "High-performance, iconic, luxury sports car.")),
      ("jeep wrangler", Entry(38000, "2023 Jeep Wrangler, off-road, rugged, convertible.", "Off-road capable, adventurous, iconic design.")),
      ("ram 1500", Entry(42000, "2022 Ram 1500, pickup truck, powerful, comfortable interior.", "Powerful, versatile, comfortable for work or play.")),
      ("mini cooper", Entry(24000, "2023 Mini Cooper, compact, stylish, fun to drive.", "Stylish, compact, fun and agile.")),
      ("land rover defender", Entry(60000, "2022 Land Rover Defender, off-road SUV, luxurious, robust.", "Luxurious, off-road capable, robust and reliable.")),
      ("volvo xc90", Entry(55000, "2023 Volvo XC90, safest features, spacious.", "Safe, spacious, luxurious and dependable."))
    ]

  /** list(stock): the model names in catalog order. */
  function Keys(stock: Stock): (r: seq<string>)
    ensures |r| == |stock|
    ensures forall i :: 0 <= i < |stock| ==> r[i] == stock[i].0
  {
    seq(|stock|, i requires 0 <= i < |stock| => stock[i].0)
  }

  /** A dict never holds one key twice. */
  predicate UniqueKeys(stock: Stock)
  {
    forall i, j :: 0 <= i < j < |stock| ==> stock[i].0 != stock[j].0
  }

  /** Every key is in its lower-case form. */
  predicate LowerKeys(stock: Stock)
  {
    forall i :: 0 <= i < |stock| ==> IsLower(stock[i].0)
  }

  /** `key in stock` followed by `stock[key]`: exact match, no normalisation. */
  function Lookup(stock: Stock, key: string): (r: Option<Entry>)
    ensures r.None? <==> key !in Keys(stock)
    ensures r.Some? ==> (key, r.value) in stock
  {
    if |stock| == 0 then None
    else if stock[0].0 == key then Some(stock[0].1)
    else
      assert Keys(stock) == [stock[0].0] + Keys(stock[1..]);
      Lookup(stock[1..], key)
  }

  /** In a dict with distinct keys, looking a key up gives the entry stored under it. */
  lemma {:induction false} LookupStoredKey(stock: Stock, i: nat)
    requires UniqueKeys(stock) && i < |stock|
    ensures Lookup(stock, stock[i].0) == Some(stock[i].1)
  {
    if i > 0 {
      assert stock[0].0 != stock[i].0;
      assert stock[1..][i - 1] == stock[i];
      LookupStoredKey(stock[1..], i - 1);
    }
  }

  /**
   With lower-case keys, any spelling of a key that differs only in the case
   of its letters finds that key's entry once it is lowered.
   */
  lemma LookupAnyCase(stock: Stock, i: nat, name: string)
    requires UniqueKeys(stock) && LowerKeys(stock) && i < |stock|
    requires Lower(name) == Lower(stock[i].0)
    ensures Lookup(stock, Lower(name)) == Some(stock[i].1)
  {
    LowerFixedIff(stock[i].0);
    LookupStoredKey(stock, i);
  }

  /** The characters the shipped model names are made of. */
  predicate IsNameChar(c: char)
  {
    'a' <= c <= 'z' || '0' <= c <= '9' || c == ' ' || c == '-'
  }

  predicate IsPlainName(s: string)
  {
    forall i :: 0 <= i < |s| ==> IsNameChar(s[i])
  }

  /** A plain name is in lower case and holds no comma. */
  lemma PlainNameFacts(s: string)
    requires IsPlainName(s)
    ensures IsLower(s) && ',' !in s
  {
  }

  /**
   The names of CarStock in order, spelled out once more for the proofs below.
   Facts about the names are proved on this short list and carried over to
   CarStock by CarStockKeys: stating them on CarStock itself puts every
   entry's long details and benefits texts into each proof, which the
   solver cannot handle within its resource bound.
   */
  const CarStockNames: seq<string> := [
      "toyota corolla",
      "honda vezel",
      "ford mustang",
      "nissan rogue",
      "chevrolet silverado",
      "mercedes-benz c-class",
      "bmw 3 series",
      "audi a4",
      "volkswagen golf",
      "hyundai tucson",
      "kia sportage",
      "subaru outback",
      "lexus rx",
      "tesla model 3",
      "porsche 911",
      "jeep wrangler",
      "ram 1500",
      "mini cooper",
      "land rover defender",
      "volvo xc90"
    ]

  lemma CarStockKeys()
    ensures Keys(CarStock) == CarStockNames
  {
  }

  // The names are checked five at a time to keep each proof small.
  lemma CarStockNamesPlainA()
    ensures forall i :: 0 <= i < 5 ==> IsPlainName(CarStockNames[i])
  {
  }

  lemma CarStockNamesPlainB()
    ensures forall i :: 5 <= i < 10 ==> IsPlainName(CarStockNames[i])
  {
  }

  lemma CarStockNamesPlainC()
    ensures forall i :: 10 <= i < 15 ==> IsPlainName(CarStockNames[i])
  {
  }

  lemma CarStockNamesPlainD()
    ensures forall i :: 15 <= i < 20 ==> IsPlainName(CarStockNames[i])
  {
  }

  lemma CarStockNamesDistinct()
    ensures forall i, j :: 0 <= i < j < |CarStockNames| ==> CarStockNames[i] != CarStockNames[j]
  {
  }

  /** A stock whose names are distinct plain names has unique, lower-case, comma-free keys. */
  lemma WellFormedByNames(stock: Stock, names: seq<string>)
    requires Keys(stock) == names
    requires forall i, j :: 0 <= i < j < |names| ==> names[i] != names[j]
    requires forall i :: 0 <= i < |names| ==> IsPlainName(names[i])
    ensures UniqueKeys(stock) && LowerKeys(stock)
    ensures forall i :: 0 <= i < |stock| ==> ',' !in stock[i].0
  {
    forall i | 0 <= i < |stock|
      ensures IsLower(stock[i].0) && ',' !in stock[i].0
    {
      assert stock[i].0 == names[i];
      PlainNameFacts(names[i]);
    }
  }

  /** The shipped catalog: twenty distinct lower-case names, none holding a comma. */
  lemma CarStockWellFormed()
    ensures |CarStock| == 20
    ensures UniqueKeys(CarStock)
    ensures LowerKeys(CarStock)
    ensures forall i :: 0 <= i < |CarStock| ==> ',' !in CarStock[i].0
  {
    CarStockKeys();
    CarStockNamesDistinct();
    CarStockNamesPlainA();
    CarStockNamesPlainB();
    CarStockNamesPlainC();
    CarStockNamesPlainD();
    WellFormedByNames(CarStock, CarStockNames);
  }

  /** Every shipped key is its own lower-case form, so lowering a typed name can reach it. */
  lemma CarStockKeysAreLowerCase()
    ensures forall i :: 0 <= i < |CarStock| ==> Lower(CarStock[i].0) == CarStock[i].0
  {
    CarStockWellFormed();
    forall i | 0 <= i < |CarStock| ensures Lower(CarStock[i].0) == CarStock[i].0 {
      LowerFixedIff(CarStock[i].0);
    }
  }
}
