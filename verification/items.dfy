/**
 * The shopping-list entries the services pass to one another (Python dicts
 * with the keys `name`, `quantity`, `unit`, `display` and `category`). A key
 * that is absent reads as `None`; an absent `name` reads as `""`, which is
 * what `item.get("name", "")` gives.
 */
module ShoppingItems {
  import opened Wrappers

  datatype Item = Item(
    name: string,
    quantity: Option<real>,
    unit: Option<string>,
    display: Option<string>,
    category: Option<string>)
}
