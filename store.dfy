/**
 * The store command (src/store.tsx): the sort table, the dropdown's value
 * encoding and its decoder, the category list, and the sorted and filtered
 * list the command shows.
 */
module Store {
  import opened Wrappers
  import opened Text
  import opened Seqs
  import opened Sorting
  import opened StringOrder
  import opened Extensions
  import ObjectPrototype

  // ---------------------------------------------------------------------
  // sortFuncs
  // ---------------------------------------------------------------------

  /** The keys of `sortFuncs`. */
  const SortNames: seq<string> := ["newest", "oldest", "mostDownloads", "leastDownloads", "update"]

  /** `sortFuncs[name]`: the comparator of a known name, nothing for any other string. */
  function SortFunc(name: string): Option<(Extension, Extension) -> real> {
    if name == "newest" then Some((a: Extension, b: Extension) => (b.created_at - a.created_at) as real)
    else if name == "oldest" then Some((a: Extension, b: Extension) => (a.created_at - b.created_at) as real)
    else if name == "mostDownloads" then Some((a: Extension, b: Extension) => (b.download_count - a.download_count) as real)
    else if name == "leastDownloads" then Some((a: Extension, b: Extension) => (a.download_count - b.download_count) as real)
    else if name == "update" then Some((a: Extension, b: Extension) => (b.updated_at - a.updated_at) as real)
    else None
  }

  /**
   * What it means for `a` to come no later than `b` under each sort:
   * newest and oldest by creation time, most and least downloads by count,
   * update by the latest update first.
   */
  predicate InOrder(name: string, a: Extension, b: Extension) {
    if name == "newest" then a.created_at >= b.created_at
    else if name == "oldest" then a.created_at <= b.created_at
    else if name == "mostDownloads" then a.download_count >= b.download_count
    else if name == "leastDownloads" then a.download_count <= b.download_count
    else if name == "update" then a.updated_at >= b.updated_at
    else true
  }

  /** Exactly the five names have a comparator. */
  lemma SortFuncKnown(name: string)
    ensures SortFunc(name).Some? <==> name in SortNames
  {
  }

  /** Each comparator allows `a` before `b` exactly when `InOrder` does. */
  lemma SortFuncOrders(name: string, a: Extension, b: Extension)
    requires SortFunc(name).Some?
    ensures SortFunc(name).value(a, b) <= 0.0 <==> InOrder(name, a, b)
  {
  }

  /** `oldest` is `newest` reversed, and `leastDownloads` is `mostDownloads` reversed. */
  lemma SortFuncReversals(a: Extension, b: Extension)
    ensures SortFunc("oldest").value(a, b) == SortFunc("newest").value(b, a)
    ensures SortFunc("leastDownloads").value(a, b) == SortFunc("mostDownloads").value(b, a)
  {
  }

  lemma SortFuncIsTotalPreorder(name: string)
    requires SortFunc(name).Some?
    ensures IsTotalPreorder(SortFunc(name).value)
  {
    var cmp := SortFunc(name).value;
    forall x, y ensures ComparableAt(cmp, x, y) {
      SortFuncOrders(name, x, y);
      SortFuncOrders(name, y, x);
    }
    forall x, y, z ensures TransitiveAt(cmp, x, y, z) {
      SortFuncOrders(name, x, y);
      SortFuncOrders(name, y, z);
      SortFuncOrders(name, x, z);
    }
  }

  // ---------------------------------------------------------------------
  // The dropdown's values
  // ---------------------------------------------------------------------

  const SortPrefix: string := "sort_"
  const CategoryPrefix: string := "cat_"

  /** The value of a sort item. */
  function SortValue(sort: string): string {
    SortPrefix + sort
  }

  /** The value of a category item; the "All" item is the empty category. */
  function CategoryValue(category: string): string {
    CategoryPrefix + category
  }

  /** What choosing a dropdown value does to the command's state. */
  datatype Change = CategoryChange(category: string) | SortChange(sort: string) | NoChange

  /**
   * `onChange`: a `cat_` value selects the category after the prefix;
   * failing that, a `sort_` value selects the sort after the prefix; any
   * other value changes nothing.
   */
  function OnChange(value: string): (r: Change)
    ensures r.CategoryChange? <==> StartsWith(value, CategoryPrefix)
    ensures r.CategoryChange? ==> value == CategoryValue(r.category)
    ensures r.SortChange? <==> !StartsWith(value, CategoryPrefix) && StartsWith(value, SortPrefix)
    ensures r.SortChange? ==> value == SortValue(r.sort)
  {
    if StartsWith(value, CategoryPrefix) then
      assert value == CategoryPrefix + value[4..];
      CategoryChange(value[4..])
    else if StartsWith(value, SortPrefix) then
      assert value == SortPrefix + value[5..];
      SortChange(value[5..])
    else NoChange
  }

  /** Decoding a sort item gives back its sort name. */
  lemma SortValueRoundTrip(sort: string)
    ensures OnChange(SortValue(sort)) == SortChange(sort)
  {
    StartsWithConcat(SortPrefix, sort);
    assert SortValue(sort)[0] == 's';
  }

  /** Decoding a category item gives back its category; the "All" item gives the empty one. */
  lemma CategoryValueRoundTrip(category: string)
    ensures OnChange(CategoryValue(category)) == CategoryChange(category)
    ensures OnChange(CategoryPrefix) == CategoryChange("")
  {
    StartsWithConcat(CategoryPrefix, category);
    StartsWithConcat(CategoryPrefix, "");
    assert CategoryPrefix + "" == CategoryPrefix;
  }

  /** The state the command keeps: the sort name and the category ("" for all). */
  datatype Selection = Selection(sortBy: string, category: string)

  /** Applies a dropdown choice to the selection. */
  function Apply(s: Selection, value: string): (r: Selection)
    ensures StartsWith(value, CategoryPrefix) ==> r == s.(category := value[4..])
    ensures !StartsWith(value, CategoryPrefix) && StartsWith(value, SortPrefix) ==> r == s.(sortBy := value[5..])
    ensures !StartsWith(value, CategoryPrefix) && !StartsWith(value, SortPrefix) ==> r == s
  {
    match OnChange(value)
    case CategoryChange(c) => s.(category := c)
    case SortChange(v) => s.(sortBy := v)
    case NoChange => s
  }

  /** Picking the item shown as selected (`cat_` + current category) leaves the selection as it is. */
  lemma ApplySelectedItem(s: Selection)
    ensures Apply(s, CategoryValue(s.category)) == s
  {
    CategoryValueRoundTrip(s.category);
  }

  // ---------------------------------------------------------------------
  // getAllCategories
  // ---------------------------------------------------------------------

  /** `e.categories || []` */
  function CategoriesOf(e: Extension): seq<string> {
    e.categories.GetOr([])
  }

  /** Some extension of `xs` lists category `c`. */
  ghost predicate Occurs(xs: seq<Extension>, c: string) {
    exists k :: 0 <= k < |xs| && c in CategoriesOf(xs[k])
  }

  /**
   * `getAllCategories`: no categories for an undefined list; otherwise every
   * category some extension lists, once each, in ascending default string
   * order (strictly, as no two are equal).
   */
  method GetAllCategories(extensions: Option<seq<Extension>>) returns (r: seq<string>)
    ensures extensions.None? ==> r == []
    ensures extensions.Some? ==> forall c :: c in r <==> Occurs(extensions.value, c)
    ensures Distinct(r)
    ensures forall i, j :: 0 <= i < j < |r| ==> Compare(Utf16(r[i]), Utf16(r[j])) < 0
  {
    if extensions.None? {
      return [];
    }
    var xs := extensions.value;
    var result: seq<string> := [];
    for i := 0 to |xs|
      invariant forall c :: c in result <==> exists k :: 0 <= k < i && c in CategoriesOf(xs[k])
      invariant Distinct(result)
    {
      var cs := CategoriesOf(xs[i]);
      for j := 0 to |cs|
        invariant forall c :: c in result <==> (exists k :: 0 <= k < i && c in CategoriesOf(xs[k])) || c in cs[..j]
        invariant Distinct(result)
      {
        if cs[j] !in result {
          result := result + [cs[j]];
        }
        assert cs[..j + 1] == cs[..j] + [cs[j]];
      }
      assert cs[..|cs|] == cs;
    }
    var a := new string[|result|](k requires 0 <= k < |result| => result[k]);
    assert a[..] == result;
    CodeUnitOrderIsTotalPreorder();
    SortWith(a, CodeUnitOrder());
    r := a[..];
    DistinctCounts(result);
    DistinctCounts(r);
    assert forall c :: c in r <==> c in result by {
      forall c ensures c in r <==> c in result {
        assert c in r <==> c in multiset(r);
        assert c in result <==> c in multiset(result);
      }
    }
    forall i, j | 0 <= i < j < |r|
      ensures Compare(Utf16(r[i]), Utf16(r[j])) < 0
    {
      if Compare(Utf16(r[i]), Utf16(r[j])) == 0 {
        CodeUnitOrderTiesOnlyEqual(r[i], r[j]);
      }
    }
  }

  // ---------------------------------------------------------------------
  // The list the command shows
  // ---------------------------------------------------------------------

  /** `e.categories?.includes(category)`: an extension without categories never matches. */
  function InCategory(category: string): Extension -> bool {
    (e: Extension) => e.categories.Some? && category in e.categories.value
  }

  /**
   * Whether `sort(sortFuncs[sortBy])` throws on a list of `length` elements.
   * `sortFuncs["__proto__"]` is `Object.prototype`, which is no function, so
   * `sort` refuses it outright. The inherited methods that need an object
   * `this` throw at the first comparison, because `sort` calls its comparator
   * with `this` undefined; a list of two or more elements makes one.
   */
  predicate SortThrows(sortBy: string, length: nat) {
    sortBy == "__proto__" || (sortBy in ObjectPrototype.NeedObjectThis && length >= 2)
  }

  /**
   * Lines 110-112: the fetched list is sorted in place by `sortFuncs[sortBy]`,
   * then an empty category keeps the whole list and any other keeps the
   * extensions listing it, in order. A name without a comparator of its own
   * leaves the list in its order: `sort(undefined)` compares every extension
   * as the same string, and the inherited `toString` and `constructor`
   * compare as `NaN`, which `sort` reads as a tie. The other inherited names
   * throw as `SortThrows` says, and the list is then left as it was.
   */
  method ShownExtensions(extensionsRaw: Option<array<Extension>>, sortBy: string, category: string)
    returns (shown: Completion<Option<seq<Extension>>>)
    modifies if extensionsRaw.Some? then {extensionsRaw.value} else {}
    ensures shown.Throw? <==> extensionsRaw.Some? && SortThrows(sortBy, extensionsRaw.value.Length)
    ensures shown.Normal? ==> (shown.value.None? <==> extensionsRaw.None?)
    ensures extensionsRaw.Some? ==> var a := extensionsRaw.value;
      && multiset(a[..]) == old(multiset(a[..]))
      && (SortFunc(sortBy).None? ==> a[..] == old(a[..]))
      && (forall i, j :: 0 <= i < j < a.Length ==> InOrder(sortBy, a[i], a[j]))
      && (shown.Normal? ==>
            && shown.value.value == (if |category| > 0 then Filter(a[..], InCategory(category)) else a[..])
            && (forall i, j :: 0 <= i < j < |shown.value.value| ==>
                  InOrder(sortBy, shown.value.value[i], shown.value.value[j])))
  {
    if extensionsRaw.None? {
      return Normal(None);
    }
    var a := extensionsRaw.value;
    if SortThrows(sortBy, a.Length) {
      return Throw;
    }
    var cmp := SortFunc(sortBy);
    if cmp.Some? {
      SortFuncIsTotalPreorder(sortBy);
      SortWith(a, cmp.value);
      forall i, j | 0 <= i < j < a.Length
        ensures InOrder(sortBy, a[i], a[j])
      {
        SortFuncOrders(sortBy, a[i], a[j]);
      }
    }
    var sorted := a[..];
    if |category| > 0 {
      FilterKeepsOrder(sorted, InCategory(category), (x: Extension, y: Extension) => InOrder(sortBy, x, y));
      shown := Normal(Some(Filter(sorted, InCategory(category))));
    } else {
      shown := Normal(Some(sorted));
    }
  }

  /** A non-empty category keeps exactly the extensions that list it. */
  lemma CategoryFilterMembership(xs: seq<Extension>, category: string, e: Extension)
    ensures e in Filter(xs, InCategory(category)) <==> e in xs && e.categories.Some? && category in e.categories.value
  {
    FilterMembership(xs, InCategory(category), e);
  }

  /** Every category the filter can select is one of the dropdown's categories. */
  lemma FilterCategoriesListed(xs: seq<Extension>, category: string, cats: seq<string>)
    requires forall c :: c in cats <==> Occurs(xs, c)
    requires Filter(xs, InCategory(category)) != []
    ensures category in cats
  {
    var e := Filter(xs, InCategory(category))[0];
    FilterMembership(xs, InCategory(category), e);
    var k :| 0 <= k < |xs| && xs[k] == e;
    assert category in CategoriesOf(xs[k]);
  }
}
