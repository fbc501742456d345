/**
 * The products service: the Magento product-search URL built from a
 * category id and optional paging, and the reshaping of the search response
 * into the storefront's `{total, results, searchCriteria}`.
 */
module Products {
  import opened Wrappers
  import opened Decimal
  import opened UrlParams

  // ---------------------------------------------------------------------------
  // The request
  // ---------------------------------------------------------------------------

  /** A JavaScript number as `parseInt` produces it, for safe integers: an integer or NaN. */
  datatype JsNumber = Finite(value: int) | NaN

  /** `if (n)`: zero and NaN are falsy. */
  predicate Truthy(n: JsNumber) {
    n.Finite? && n.value != 0
  }

  /** `${n}` and `n.toString()` for such a number. */
  function NumberText(n: JsNumber): string {
    if n.NaN? then "NaN" else IntToString(n.value)
  }

  /** The `{categoryId, offset, limit}` argument; a missing category id arrives as null. */
  datatype SearchRequest = SearchRequest(categoryId: Option<string>, offset: JsNumber, limit: JsNumber)

  /** `${categoryId}`: a string is itself, null prints as "null". */
  function CategoryIdText(categoryId: Option<string>): string {
    if categoryId.Some? then categoryId.value else "null"
  }

  /** `VISIBILITY_HIDDEN`: the visibility the second filter group excludes. */
  const VisibilityHidden: int := 1

  const CategoryField: string := "searchCriteria[filter_groups][0][filters][0][field]"
  const CategoryValue: string := "searchCriteria[filter_groups][0][filters][0][value]"
  const CategoryCondition: string := "searchCriteria[filter_groups][0][filters][0][condition_type]"
  const VisibilityField: string := "searchCriteria[filter_groups][1][filters][0][field]"
  const VisibilityValue: string := "searchCriteria[filter_groups][1][filters][0][value]"
  const VisibilityCondition: string := "searchCriteria[filter_groups][1][filters][0][condition_type]"
  const CurrentPageKey: string := "searchCriteria[currentPage]"
  const PageSizeKey: string := "searchCriteria[pageSize]"

  /** What precedes the serialized parameters. */
  const ProductsPrefix: string := "products?"

  // ---------------------------------------------------------------------------
  // Specification of the query
  // ---------------------------------------------------------------------------

  /** The two filter groups, always present: category equal to, visibility not equal to hidden. */
  function FilterParams(categoryId: Option<string>): seq<Param> {
    [ Param(CategoryField, "category_id"),
      Param(CategoryValue, CategoryIdText(categoryId)),
      Param(CategoryCondition, "eq"),
      Param(VisibilityField, "visibility"),
      Param(VisibilityValue, IntToString(VisibilityHidden)),
      Param(VisibilityCondition, "neq") ]
  }

  /** The paging pairs: each only for a truthy number. */
  function PagingParams(offset: JsNumber, limit: JsNumber): seq<Param> {
    (if Truthy(offset) then [Param(CurrentPageKey, NumberText(offset))] else [])
      + (if Truthy(limit) then [Param(PageSizeKey, NumberText(limit))] else [])
  }

  /** The list of pairs the `URLSearchParams` object holds once the builder is done. */
  function QueryParams(req: SearchRequest): seq<Param> {
    FilterParams(req.categoryId) + PagingParams(req.offset, req.limit)
  }

  /** The URL the builder returns, given the form-urlencoded byte encoder. */
  function ProductsUrl(req: SearchRequest, encode: string -> string): string {
    ProductsPrefix + Serialize(QueryParams(req), encode)
  }

  // ---------------------------------------------------------------------------
  // The builder
  // ---------------------------------------------------------------------------

  /** `getProductsURLWithParams`: a series of `set` calls on one `URLSearchParams`. */
  method ProductsUrlWithParams(req: SearchRequest, encode: string -> string) returns (url: string)
    ensures url == ProductsUrl(req, encode)
  {
    var queryParams := new SearchParams();
    SetFresh(queryParams, 0, "category_id");
    SetFresh(queryParams, 1, CategoryIdText(req.categoryId));
    SetFresh(queryParams, 2, "eq");
    SetFresh(queryParams, 3, "visibility");
    SetFresh(queryParams, 4, IntToString(VisibilityHidden));
    SetFresh(queryParams, 5, "neq");
    assert queryParams.list == FilterParams(req.categoryId);

    if Truthy(req.offset) {
      SetFresh(queryParams, 6, NumberText(req.offset));
    }
    if Truthy(req.limit) {
      SetFresh(queryParams, 7, NumberText(req.limit));
    }
    assert queryParams.list == QueryParams(req);
    url := ProductsPrefix + Serialize(queryParams.list, encode);
  }

  /** Every key the builder sets, in the order it sets them. */
  function AllKeys(): seq<string> {
    [CategoryField, CategoryValue, CategoryCondition,
     VisibilityField, VisibilityValue, VisibilityCondition,
     CurrentPageKey, PageSizeKey]
  }

  /** Every pair set so far has one of the first k keys. */
  ghost predicate KeysBelow(list: seq<Param>, k: nat) {
    forall i :: 0 <= i < |list| ==> exists j :: 0 <= j < k && j < |AllKeys()| && list[i].name == AllKeys()[j]
  }

  /**
   * One `set` of key number k when only earlier keys have been set: the keys
   * are distinct, so `set` appends.
   */
  method SetFresh(params: SearchParams, k: nat, value: string)
    requires k < |AllKeys()| && KeysBelow(params.list, k)
    modifies params
    ensures params.list == old(params.list) + [Param(AllKeys()[k], value)]
    ensures KeysBelow(params.list, k + 1)
  {
    assert !Mentions(params.list, AllKeys()[k]) by {
      AllKeysDistinct();
    }
    SetParamAppends(params.list, AllKeys()[k], value);
    params.Set(AllKeys()[k], value);
  }

  // ---------------------------------------------------------------------------
  // Properties of the query
  // ---------------------------------------------------------------------------

  /** The keys the builder uses are pairwise distinct. */
  lemma AllKeysDistinct()
    ensures forall i, j :: 0 <= i < j < |AllKeys()| ==> AllKeys()[i] != AllKeys()[j]
  {
  }

  /** The category filter group comes first: field `category_id`, condition `eq`. */
  lemma CategoryFilterFirst(req: SearchRequest)
    ensures |QueryParams(req)| >= 3
    ensures QueryParams(req)[0] == Param(CategoryField, "category_id")
    ensures QueryParams(req)[1] == Param(CategoryValue, CategoryIdText(req.categoryId))
    ensures QueryParams(req)[2] == Param(CategoryCondition, "eq")
  {
  }

  /** The visibility filter group comes second: field `visibility`, value "1", condition `neq`. */
  lemma VisibilityFilterSecond(req: SearchRequest)
    ensures |QueryParams(req)| >= 6
    ensures QueryParams(req)[3] == Param(VisibilityField, "visibility")
    ensures QueryParams(req)[4] == Param(VisibilityValue, "1")
    ensures QueryParams(req)[5] == Param(VisibilityCondition, "neq")
  {
    assert IntToString(VisibilityHidden) == "1";
  }

  /** `searchCriteria[currentPage]` is present exactly when offset is truthy, and then holds it. */
  lemma CurrentPageIffOffset(req: SearchRequest)
    ensures Lookup(QueryParams(req), CurrentPageKey)
         == if Truthy(req.offset) then Some(NumberText(req.offset)) else None
  {
    var filters := FilterParams(req.categoryId);
    var paging := PagingParams(req.offset, req.limit);
    LookupSkips(filters, paging, CurrentPageKey);
    if Truthy(req.offset) {
      assert paging[0] == Param(CurrentPageKey, NumberText(req.offset));
    } else if Truthy(req.limit) {
      assert paging == [Param(PageSizeKey, NumberText(req.limit))];
      assert paging[1..] == [];
    }
  }

  /** `searchCriteria[pageSize]` is present exactly when limit is truthy, and then holds it. */
  lemma PageSizeIffLimit(req: SearchRequest)
    ensures Lookup(QueryParams(req), PageSizeKey)
         == if Truthy(req.limit) then Some(NumberText(req.limit)) else None
  {
    var filters := FilterParams(req.categoryId);
    var paging := PagingParams(req.offset, req.limit);
    LookupSkips(filters, paging, PageSizeKey);
    if Truthy(req.offset) {
      assert paging[0].name == CurrentPageKey;
      assert paging[1..] == if Truthy(req.limit) then [Param(PageSizeKey, NumberText(req.limit))] else [];
      if Truthy(req.limit) {
        assert paging[1..][1..] == [];
      }
    } else if Truthy(req.limit) {
      assert paging[0] == Param(PageSizeKey, NumberText(req.limit));
    }
  }

  lemma {:induction false} LookupSkips(front: seq<Param>, back: seq<Param>, name: string)
    requires forall i :: 0 <= i < |front| ==> front[i].name != name
    ensures Lookup(front + back, name) == Lookup(back, name)
    decreases |front|
  {
    if front != [] {
      assert (front + back)[0] == front[0];
      assert (front + back)[1..] == front[1..] + back;
      LookupSkips(front[1..], back, name);
    } else {
      assert front + back == back;
    }
  }

  /**
   * Six filter pairs in fixed order, then at most the two paging pairs, and no
   * key twice.
   */
  lemma QueryShape(req: SearchRequest)
    ensures |QueryParams(req)| == 6 + (if Truthy(req.offset) then 1 else 0) + (if Truthy(req.limit) then 1 else 0)
    ensures QueryParams(req)[..6] == FilterParams(req.categoryId)
    ensures forall i, j :: 0 <= i < j < |QueryParams(req)| ==> QueryParams(req)[i].name != QueryParams(req)[j].name
  {
  }

  /** The URL starts with `products?` and the rest decodes back to the query pairs. */
  lemma ProductsUrlDecodes(req: SearchRequest, encode: string -> string, decode: string -> string)
    requires CodecPair(encode, decode)
    ensures |ProductsUrl(req, encode)| >= |ProductsPrefix|
    ensures ProductsUrl(req, encode)[..|ProductsPrefix|] == ProductsPrefix
    ensures Parse(ProductsUrl(req, encode)[|ProductsPrefix|..], decode) == QueryParams(req)
  {
    var url := ProductsUrl(req, encode);
    assert url[|ProductsPrefix|..] == Serialize(QueryParams(req), encode);
    ParseSerialize(QueryParams(req), encode, decode);
  }

  // ---------------------------------------------------------------------------
  // The response
  // ---------------------------------------------------------------------------

  /** The fields of the search response that are read; each may be missing. */
  datatype SearchResponse<Item, Criteria> = SearchResponse(
    totalCount: Option<int>, items: Option<seq<Item>>, searchCriteria: Option<Criteria>)

  /** What `getProducts` resolves to. */
  datatype ProductPage<Item, Criteria> = ProductPage(
    total: Option<int>, results: Option<seq<Item>>, searchCriteria: Option<Criteria>)

  /**
   * The reshaping in `getProducts`: `data?.total_count`, `data?.items` and
   * `data?.search_criteria`; a missing body gives three missing fields.
   */
  function ToProductPage<Item, Criteria>(data: Option<SearchResponse<Item, Criteria>>): ProductPage<Item, Criteria> {
    match data
    case None => ProductPage(None, None, None)
    case Some(d) => ProductPage(d.totalCount, d.items, d.searchCriteria)
  }

  /** The page read back into a response. */
  function FromProductPage<Item, Criteria>(page: ProductPage<Item, Criteria>): SearchResponse<Item, Criteria> {
    SearchResponse(page.total, page.results, page.searchCriteria)
  }

  /**
   * The reshaping renames fields and adds nothing: it is a bijection between
   * present responses and pages.
   */
  lemma ProductPageRenamesOnly<Item, Criteria>(d: SearchResponse<Item, Criteria>, page: ProductPage<Item, Criteria>)
    ensures FromProductPage(ToProductPage(Some(d))) == d
    ensures ToProductPage(Some(FromProductPage(page))) == page
    ensures ToProductPage(Some(d)).total == d.totalCount
    ensures ToProductPage(Some(d)).results == d.items
    ensures ToProductPage(Some(d)).searchCriteria == d.searchCriteria
  {
  }

  /** Without a response body every field of the page is missing. */
  lemma ProductPageOfNothing<Item, Criteria>()
    ensures ToProductPage<Item, Criteria>(None) == ProductPage(None, None, None)
  {
  }
}
