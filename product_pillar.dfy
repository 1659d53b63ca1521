/**
 * A business pillar holding products with distinct names (product_pillar.py).
 */
module PillarModel {
  import opened Wrappers
  import opened Text
  import opened ProductModel

  /** Names in a product list. */
  function Names(ps: seq<Product>): (ns: seq<string>)
    ensures |ns| == |ps|
    ensures forall i :: 0 <= i < |ps| ==> ns[i] == ps[i].name
  {
    seq(|ps|, i requires 0 <= i < |ps| => ps[i].name)
  }

  predicate UniqueNames(ps: seq<Product>) {
    forall i, j :: 0 <= i < j < |ps| ==> ps[i].name != ps[j].name
  }

  /** `ProductPillar`. */
  class ProductPillar {
    const name: string
    const description: Option<string>
    var products: seq<Product>

    /** A new pillar has no products. */
    constructor(name: string, description: Option<string>)
      ensures this.name == name && this.description == description
      ensures products == []
    {
      this.name := name;
      this.description := description;
      products := [];
    }

    /**
     * `add_product`: a product whose name is already present is ignored;
     * any other is appended. Distinct names stay distinct.
     */
    method AddProduct(p: Product)
      modifies this
      ensures p.name in Names(old(products)) ==> products == old(products)
      ensures p.name !in Names(old(products)) ==> products == old(products) + [p]
      ensures old(UniqueNames(products)) ==> UniqueNames(products)
    {
      var i := 0;
      while i < |products|
        invariant 0 <= i <= |products|
        invariant forall j :: 0 <= j < i ==> products[j].name != p.name
      {
        if products[i].name == p.name {
          assert Names(products)[i] == p.name;
          return;
        }
        i := i + 1;
      }
      assert p.name !in Names(products) by {
        forall j | 0 <= j < |products| ensures Names(products)[j] != p.name {
        }
      }
      products := products + [p];
    }

    /** `get_product`: the first product with that name, or null. */
    method GetProduct(productName: string) returns (r: Product?)
      ensures r == null <==> productName !in Names(products)
      ensures r != null ==> r.name == productName
      ensures r != null ==> exists i :: (0 <= i < |products| && products[i] == r
        && forall j :: 0 <= j < i ==> products[j].name != productName)
    {
      for i := 0 to |products|
        invariant forall j :: 0 <= j < i ==> products[j].name != productName
      {
        if products[i].name == productName {
          assert Names(products)[i] == productName;
          return products[i];
        }
      }
      assert productName !in Names(products) by {
        forall j | 0 <= j < |products| ensures Names(products)[j] != productName {
        }
      }
      return null;
    }

    /** `__str__`: the name and the product count, which reads back with `int()`. */
    function Str(): (t: string)
      reads this
      ensures var head := "ProductPillar(name='" + name + "', products=";
        |head| + 1 < |t| && t[..|head|] == head && t[|t| - 1..] == ")"
        && ParseInt(t[|head|..|t| - 1]) == Some(|products|)
    {
      var head := "ProductPillar(name='" + name + "', products=";
      NumberReadsBack(head, |products|, ")");
      head + NatToString(|products|) + ")"
    }

    /** `__repr__`: the name, the description (`None` when absent) and the product count, which reads back. */
    function Repr(): (t: string)
      reads this
      ensures var head := "ProductPillar(name='" + name + "', description='" + description.GetOr("None") + "', products=";
        |head| + 1 < |t| && t[..|head|] == head && t[|t| - 1..] == ")"
        && ParseInt(t[|head|..|t| - 1]) == Some(|products|)
    {
      var head := "ProductPillar(name='" + name + "', description='" + description.GetOr("None") + "', products=";
      NumberReadsBack(head, |products|, ")");
      head + NatToString(|products|) + ")"
    }
  }
}
