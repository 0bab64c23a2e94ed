/**
 * The vehicle normaliser of script.js: how raw catalog records become display records on the
 * home teaser (`loadHomeVehicles`), the full grid (`loadVehicleList`) and the detail page
 * (`loadVehicleDetails`).
 *
 * A catalog record's fields may be missing; JavaScript's `||` and `?:` treat a missing field,
 * the number 0 and the empty string alike as "falsy". `parseFloat` is a parameter `parse`:
 * the number the price text denotes.
 */
module Catalog {
  import opened Optional
  import opened JsStrings

  /** One entry of the catalog API's `cars` array (or its `Car` object). */
  datatype RawCar = RawCar(
    id: Option<int>,          // car.id
    make: string,             // car.car
    model: string,            // car.car_model
    year: string,             // car.car_model_year
    color: Option<string>,    // car.car_color
    price: Option<string>)    // car.price, e.g. "$1,234.50"

  /** A card of the home teaser or of the vehicle grid. */
  datatype Vehicle = Vehicle(
    id: int,
    name: string,
    vehicleType: string,      // the record's `type`
    color: string,
    price: real,
    image: string)

  /** The single vehicle of the detail page. Its `image` is `None` where the palette lookup
      yields `undefined`. */
  datatype DetailVehicle = DetailVehicle(
    id: Option<int>,
    name: string,
    vehicleType: string,
    color: string,
    price: real,
    image: Option<string>,
    description: string,
    features: seq<string>)

  const HomeLimit: nat := 6
  const GridLimit: nat := 30
  const VehicleType := "Car"
  const DefaultColor := "Gray"
  const DefaultPrice: real := 2000.0

  const HomeImages: seq<string> := [
    "https://placehold.co/200x150/3498db/ffffff?text=Car+1",
    "https://placehold.co/200x150/e74c3c/ffffff?text=Car+2",
    "https://placehold.co/200x150/2ecc71/ffffff?text=Car+3",
    "https://placehold.co/200x150/f39c12/ffffff?text=Car+4",
    "https://placehold.co/200x150/9b59b6/ffffff?text=Car+5",
    "https://placehold.co/200x150/1abc9c/ffffff?text=Car+6"]

  const GridImages: seq<string> := [
    "https://placehold.co/400x300/3498db/ffffff?text=Sedan",
    "https://placehold.co/400x300/e74c3c/ffffff?text=SUV",
    "https://placehold.co/400x300/2ecc71/ffffff?text=Luxury",
    "https://placehold.co/400x300/f39c12/ffffff?text=Sports",
    "https://placehold.co/400x300/9b59b6/ffffff?text=Convertible",
    "https://placehold.co/400x300/1abc9c/ffffff?text=Hatchback",
    "https://placehold.co/400x300/34495e/ffffff?text=Coupe",
    "https://placehold.co/400x300/e67e22/ffffff?text=Van",
    "https://placehold.co/400x300/95a5a6/ffffff?text=Truck",
    "https://placehold.co/400x300/c0392b/ffffff?text=Crossover",
    "https://placehold.co/400x300/16a085/ffffff?text=Compact",
    "https://placehold.co/400x300/27ae60/ffffff?text=Premium",
    "https://placehold.co/400x300/2980b9/ffffff?text=Electric",
    "https://placehold.co/400x300/8e44ad/ffffff?text=Hybrid",
    "https://placehold.co/400x300/d35400/ffffff?text=Family"]

  const DetailImages: seq<string> := [
    "https://placehold.co/800x600/3498db/ffffff?text=Car+Details",
    "https://placehold.co/800x600/e74c3c/ffffff?text=Car+Details",
    "https://placehold.co/800x600/2ecc71/ffffff?text=Car+Details",
    "https://placehold.co/800x600/f39c12/ffffff?text=Car+Details",
    "https://placehold.co/800x600/9b59b6/ffffff?text=Car+Details"]

  const Features: seq<string> := ["Air Conditioning", "Power Steering", "Bluetooth", "GPS Navigation"]

  function Min(a: int, b: int): int {
    if a <= b then a else b
  }

  /** `Math.round(x)`: the integer nearest to `x`, halves rounded up. */
  function Round(x: real): (r: int)
    ensures r as real - 0.5 <= x < r as real + 0.5
  {
    (x + 0.5).Floor
  }

  /** JavaScript's `a % m` for a positive `m`: the remainder of division truncated toward zero,
      so it takes the sign of `a`. */
  function JsRem(a: int, m: int): (r: int)
    requires m > 0
    ensures -m < r < m
    ensures a >= 0 ==> r >= 0
    ensures a <= 0 ==> r <= 0
    ensures exists q :: a == q * m + r
  {
    if a >= 0 then
      assert a == (a / m) * m + a % m;
      a % m
    else
      var q := (-a) / m;
      assert -a == q * m + (-a) % m;
      assert a == (-q) * m + -((-a) % m);
      -((-a) % m)
  }

  /** `palette[k]`: `undefined` outside the array, negative `k` included. */
  function PaletteAt(palette: seq<string>, k: int): Option<string> {
    if 0 <= k < |palette| then Some(palette[k]) else None
  }

  /** `car.id || fallback` */
  function IdOr(id: Option<int>, fallback: int): int {
    if id.Some? && id.value != 0 then id.value else fallback
  }

  /** `car.car_color || 'Gray'` */
  function ColorOr(color: Option<string>): string {
    if color.Some? && color.value != "" then color.value else DefaultColor
  }

  /** `car.price` is truthy: present and not the empty string. */
  predicate HasPrice(price: Option<string>) {
    price.Some? && price.value != ""
  }

  /** `parseFloat(price.replace(/[$,]/g, '')) / 10` */
  function ScaledPrice(price: string, parse: string -> real): real {
    parse(StripCurrency(price)) / 10.0
  }

  /** `${car.car} ${car.car_model}` */
  function FullName(car: RawCar): string {
    car.make + " " + car.model
  }

  function HomeVehicle(car: RawCar, index: nat, parse: string -> real): Vehicle
    requires index < |HomeImages|
  {
    Vehicle(
      IdOr(car.id, index + 1),
      FullName(car),
      VehicleType,
      ColorOr(car.color),
      if HasPrice(car.price) then Round(ScaledPrice(car.price.value, parse)) as real else DefaultPrice,
      HomeImages[index])
  }

  function GridVehicle(car: RawCar, index: nat, parse: string -> real): Vehicle {
    Vehicle(
      IdOr(car.id, index + 1),
      FullName(car),
      VehicleType,
      ColorOr(car.color),
      if HasPrice(car.price) then ScaledPrice(car.price.value, parse) else DefaultPrice,
      GridImages[index % |GridImages|])
  }

  /** The home teaser: `cars.slice(0, 6).map(...)`. */
  function NormalizeHome(cars: seq<RawCar>, parse: string -> real): (r: seq<Vehicle>)
    ensures |r| == Min(|cars|, HomeLimit)
    ensures forall i :: 0 <= i < |r| ==>
      && r[i].name == cars[i].make + " " + cars[i].model
      && r[i].vehicleType == "Car"
      && (cars[i].id.Some? && cars[i].id.value != 0 ==> r[i].id == cars[i].id.value)
      && (cars[i].id.None? || cars[i].id.value == 0 ==> r[i].id == i + 1)
      && (cars[i].color.Some? && cars[i].color.value != "" ==> r[i].color == cars[i].color.value)
      && (cars[i].color.None? || cars[i].color.value == "" ==> r[i].color == "Gray")
      && (cars[i].price.None? || cars[i].price.value == "" ==> r[i].price == 2000.0)
      && (cars[i].price.Some? && cars[i].price.value != "" ==>
            r[i].price == r[i].price.Floor as real
            && r[i].price - 0.5 <= parse(StripCurrency(cars[i].price.value)) / 10.0 < r[i].price + 0.5)
      && r[i].image == HomeImages[i] && r[i].image in HomeImages
  {
    seq(Min(|cars|, HomeLimit), i requires 0 <= i < Min(|cars|, HomeLimit) => HomeVehicle(cars[i], i, parse))
  }

  /** The vehicle grid: `cars.slice(0, 30).map(...)`. The price keeps its fractional part. */
  function NormalizeGrid(cars: seq<RawCar>, parse: string -> real): (r: seq<Vehicle>)
    ensures |r| == Min(|cars|, GridLimit)
    ensures forall i :: 0 <= i < |r| ==>
      && r[i].name == cars[i].make + " " + cars[i].model
      && r[i].vehicleType == "Car"
      && (cars[i].id.Some? && cars[i].id.value != 0 ==> r[i].id == cars[i].id.value)
      && (cars[i].id.None? || cars[i].id.value == 0 ==> r[i].id == i + 1)
      && (cars[i].color.Some? && cars[i].color.value != "" ==> r[i].color == cars[i].color.value)
      && (cars[i].color.None? || cars[i].color.value == "" ==> r[i].color == "Gray")
      && (cars[i].price.None? || cars[i].price.value == "" ==> r[i].price == 2000.0)
      && (cars[i].price.Some? && cars[i].price.value != "" ==>
            r[i].price * 10.0 == parse(StripCurrency(cars[i].price.value)))
      && r[i].image == GridImages[i % 15] && r[i].image in GridImages
  {
    seq(Min(|cars|, GridLimit), i requires 0 <= i < Min(|cars|, GridLimit) => GridVehicle(cars[i], i, parse))
  }

  /** The detail page's record. Its id is `car.id` with no fallback; its image is
      `detailImages[(car.id || 0) % 5]`, which is `undefined` when the id is negative and not a
      multiple of 5, because JavaScript's remainder keeps the sign of the dividend. */
  function VehicleDetails(car: RawCar, parse: string -> real): (d: DetailVehicle)
    ensures d.id == car.id && d.name == car.make + " " + car.model && d.vehicleType == "Car"
    ensures d.color == (if car.color.Some? && car.color.value != "" then car.color.value else "Gray")
    ensures !HasPrice(car.price) ==> d.price == 2000.0
    ensures HasPrice(car.price) ==>
      d.price == d.price.Floor as real
      && d.price - 0.5 <= parse(StripCurrency(car.price.value)) / 10.0 < d.price + 0.5
    ensures var k := if car.id.Some? then car.id.value else 0;
      && (d.image.None? <==> k < 0 && (-k) % 5 != 0)
      && (!(k < 0 && (-k) % 5 != 0) ==> d.image == Some(DetailImages[k % 5]))
    ensures d.description == car.year + " " + car.make + " " + car.model
    ensures d.features == Features
  {
    DetailVehicle(
      car.id,
      FullName(car),
      VehicleType,
      ColorOr(car.color),
      if HasPrice(car.price) then Round(ScaledPrice(car.price.value, parse)) as real else DefaultPrice,
      PaletteAt(DetailImages, JsRem(IdOr(car.id, 0), |DetailImages|)),
      car.year + " " + car.make + " " + car.model,
      Features)
  }

  /** Every id the catalog provides that is a non-negative integer finds a detail image. */
  lemma DetailImageDefined(car: RawCar, parse: string -> real)
    requires car.id.None? || car.id.value >= 0
    ensures VehicleDetails(car, parse).image.Some?
    ensures VehicleDetails(car, parse).image.value in DetailImages
  {
  }

  /** Normalisation keeps the catalog's order: the grid's first six cards describe the same
      records, under the same ids, names, types and colours, as the home teaser. */
  lemma HomeIsGridPrefix(cars: seq<RawCar>, parse: string -> real, i: nat)
    requires i < |NormalizeHome(cars, parse)|
    ensures i < |NormalizeGrid(cars, parse)|
    ensures var h, g := NormalizeHome(cars, parse)[i], NormalizeGrid(cars, parse)[i];
      h.id == g.id && h.name == g.name && h.vehicleType == g.vehicleType && h.color == g.color
    ensures var h, g := NormalizeHome(cars, parse)[i], NormalizeGrid(cars, parse)[i];
      h.price - 0.5 <= g.price < h.price + 0.5
  {
    var car := cars[i];
    if HasPrice(car.price) {
      assert NormalizeHome(cars, parse)[i].price == Round(ScaledPrice(car.price.value, parse)) as real;
    }
  }
}
