/** The table from lower-cased tag to badge classes that the gallery builds from the
    tag categories: every tag of every category, later categories overwriting
    earlier ones. */
module TagColors {
  import opened JsString
  import opened Config

  /** `acc` after `tags.forEach((tag) => { acc[tag.toLowerCase()] = classes })`. */
  function Put(acc: map<string, string>, classes: string, tags: seq<string>): (r: map<string, string>)
    ensures acc.Keys <= r.Keys
    ensures forall k :: k in r ==> r[k] == classes || (k in acc && r[k] == acc[k])
  {
    if tags == [] then acc
    else Put(acc, classes, tags[..|tags| - 1])[ToLower(tags[|tags| - 1]) := classes]
  }

  /** The record the `reduce` over the categories returns, starting from `{}`. */
  function ColorTable(categories: seq<TagCategory>): (r: map<string, string>)
    ensures forall k :: k in r ==> exists i :: 0 <= i < |categories| && r[k] == categories[i].classes
  {
    if categories == [] then map[]
    else
      var n := |categories| - 1;
      var init := categories[..n];
      assert forall i :: 0 <= i < n ==> init[i] == categories[i];
      Put(ColorTable(init), categories[n].classes, categories[n].tags)
  }

  /** `tagColorByValue`: the loops of the `reduce` and the `forEach`, updating one
      record in place. */
  method BuildTagColorTable(categories: seq<TagCategory>) returns (acc: map<string, string>)
    ensures acc == ColorTable(categories)
  {
    acc := map[];
    for i := 0 to |categories|
      invariant acc == ColorTable(categories[..i])
    {
      var category := categories[i];
      for j := 0 to |category.tags|
        invariant acc == Put(ColorTable(categories[..i]), category.classes, category.tags[..j])
      {
        assert category.tags[..j + 1][..j] == category.tags[..j];
        acc := acc[ToLower(category.tags[j]) := category.classes];
      }
      assert category.tags[..|category.tags|] == category.tags;
      assert categories[..i + 1][..i] == categories[..i];
    }
    assert categories[..|categories|] == categories;
  }

  /** A key is in the record after the `forEach` exactly when it was before or is a
      lower-cased tag of the category; the category's tags take its classes. */
  lemma {:induction false} PutLookup(acc: map<string, string>, classes: string, tags: seq<string>, k: string)
    ensures k in Put(acc, classes, tags) <==> k in acc || k in LowerAll(tags)
    ensures k in LowerAll(tags) ==> Put(acc, classes, tags)[k] == classes
    ensures k !in LowerAll(tags) && k in acc ==> Put(acc, classes, tags)[k] == acc[k]
    decreases |tags|
  {
    if tags != [] {
      var init := tags[..|tags| - 1];
      PutLookup(acc, classes, init, k);
    }
  }

  /** Every lower-cased tag of every category is a key, and nothing else is. */
  lemma {:induction false} ColorTableDomain(categories: seq<TagCategory>, k: string)
    ensures k in ColorTable(categories) <==>
      exists i :: 0 <= i < |categories| && k in LowerAll(categories[i].tags)
    decreases |categories|
  {
    if categories != [] {
      var n := |categories| - 1;
      var init := categories[..n];
      ColorTableDomain(init, k);
      PutLookup(ColorTable(init), categories[n].classes, categories[n].tags, k);
      ListedSplit(categories, k);
    }
  }

  /** Some category lists `k`, in any letter case. */
  predicate Listed(categories: seq<TagCategory>, k: string)
  {
    exists i :: 0 <= i < |categories| && k in LowerAll(categories[i].tags)
  }

  /** A tag is listed by some category exactly when it is listed by one of all but
      the last, or by the last. */
  lemma ListedSplit(categories: seq<TagCategory>, k: string)
    requires categories != []
    ensures Listed(categories, k) <==>
      Listed(categories[..|categories| - 1], k) || k in LowerAll(categories[|categories| - 1].tags)
  {
    var n := |categories| - 1;
    assert forall i :: 0 <= i < n ==> categories[..n][i] == categories[i];
  }

  /** A tag takes the classes of the last category that lists it. */
  lemma {:induction false} ColorTableLastWins(categories: seq<TagCategory>, i: nat, k: string)
    requires i < |categories| && k in LowerAll(categories[i].tags)
    requires forall l :: i < l < |categories| ==> k !in LowerAll(categories[l].tags)
    ensures k in ColorTable(categories) && ColorTable(categories)[k] == categories[i].classes
    decreases |categories|
  {
    var n := |categories| - 1;
    var init := categories[..n];
    PutLookup(ColorTable(init), categories[n].classes, categories[n].tags, k);
    if i < n {
      assert forall l :: i < l < |init| ==> init[l] == categories[l];
      ColorTableLastWins(init, i, k);
    }
  }
}
