/**
 The static product-suggestion table: for each of five waste categories, an
 eco-friendly product and a one-line description of it. The page offers the
 table's keys as choices and looks the chosen key up.
 */
module Suggestions {
  import opened Wrappers

  datatype WasteType = Plastic | Food | Paper | Energy | Chemical

  datatype Suggestion = Suggestion(product: string, description: string)

  /** The key a category is stored under. */
  function Label(w: WasteType): string {
    match w
    case Plastic => "Plastic Waste"
    case Food => "Food Waste"
    case Paper => "Paper Waste"
    case Energy => "Energy Waste"
    case Chemical => "Chemical Waste"
  }

  /** The suggestion stored for a category. */
  function Suggest(w: WasteType): Suggestion {
    match w
    case Plastic =>
      Suggestion("Reusable Grocery Bags", "Durable and eco-friendly alternative to single-use plastic bags.")
    case Food =>
      Suggestion("Compost Bin", "Ideal for composting food scraps and creating nutrient-rich soil.")
    case Paper =>
      Suggestion("Recycled Notebooks", "Notebooks made from recycled paper, perfect for eco-conscious note-taking.")
    case Energy =>
      Suggestion("LED Light Bulbs", "Energy-efficient light bulbs that reduce electricity consumption.")
    case Chemical =>
      Suggestion("Eco-friendly Cleaners", "Non-toxic cleaning products that are safe for the environment.")
  }

  /** Different categories have keys of different lengths, so different keys. */
  lemma LabelInjective(v: WasteType, w: WasteType)
    requires Label(v) == Label(w)
    ensures v == w
  {
  }

  /** The category stored under a key, if any: the key lookup of the table. */
  function FromKey(key: string): Option<WasteType> {
    if key == Label(Plastic) then Some(Plastic)
    else if key == Label(Food) then Some(Food)
    else if key == Label(Paper) then Some(Paper)
    else if key == Label(Energy) then Some(Energy)
    else if key == Label(Chemical) then Some(Chemical)
    else None
  }

  /** The dictionary lookup `product_suggestions[key]`; a key that is not in the table yields `None`. */
  function Lookup(key: string): Option<Suggestion> {
    match FromKey(key)
    case Some(w) => Some(Suggest(w))
    case None => None
  }

  /** The choices the page offers: the table's keys in table order. */
  function Choices(): seq<string> {
    [Label(Plastic), Label(Food), Label(Paper), Label(Energy), Label(Chemical)]
  }

  /** Each category's key gives that category's suggestion. */
  lemma LookupByLabel(w: WasteType)
    ensures Lookup(Label(w)) == Some(Suggest(w))
  {
    assert FromKey(Label(w)) == Some(w) by {
      forall v | v != w
        ensures Label(v) != Label(w)
      {
        if Label(v) == Label(w) {
          LabelInjective(v, w);
        }
      }
    }
  }

  /** The lookup finds a suggestion exactly for the offered choices: the page never asks for a missing key. */
  lemma LookupMatchesChoices(key: string)
    ensures Lookup(key).Some? <==> key in Choices()
  {
  }
}
